/** How the system package talks to the operating system.

    Most external commands go through `run` (system/system.go:710-744); the
    exceptions are `identifyFSType` and the swap's `key` query, which use
    `CombinedOutput` and whose outcomes the operations here take as parameters,
    and `Config.Exec`, which supervises its own process. Here a command is the argv it would be started with plus what is fed on its
    standard input, and the operating system is a `Shell`: the outcome `run`
    reports for each command. An operation is then a function from a shell to a
    `Transcript`, the commands it issued in order and the error it returned.

    `Supervise` is the part of `run` that decides which error comes back, over
    the abstract outcomes of starting, waiting for and killing the process.
 */
module Process {
  import opened Outcomes

  datatype Cmd = Cmd(argv: seq<string>, stdin: string)

  /** A command with nothing on its standard input. */
  function Command(argv: seq<string>): Cmd {
    Cmd(argv, "")
  }

  /** What `run` returns for each command. */
  type Shell = Cmd -> Outcome

  datatype Transcript = Transcript(issued: seq<Cmd>, result: Outcome)

  /** The transcript of an operation that returns before issuing anything. */
  function Nothing(result: Outcome): Transcript {
    Transcript([], result)
  }

  /** Issues `cmds` in order and returns at the first that fails, with its
      error, as every `for ... { if err := run(...); err != nil { return err } }`
      in the package does. */
  function RunInOrder(cmds: seq<Cmd>, shell: Shell): (t: Transcript)
    ensures 0 < |t.issued| <= |cmds| || (t.issued == [] && cmds == [])
    ensures t.issued == cmds[..|t.issued|]
    ensures forall i :: 0 <= i < |t.issued| - 1 ==> shell(t.issued[i]).Ok?
    ensures t.result.Ok? <==> t.issued == cmds && forall i :: 0 <= i < |cmds| ==> shell(cmds[i]).Ok?
    ensures t.result.Fail? ==> t.result == shell(t.issued[|t.issued| - 1])
  {
    if |cmds| == 0 then Transcript([], Ok)
    else if shell(cmds[0]).Fail? then Transcript([cmds[0]], shell(cmds[0]))
    else
      var rest := RunInOrder(cmds[1..], shell);
      assert forall i :: 1 <= i < |cmds| ==> cmds[i] == cmds[1..][i - 1];
      Transcript([cmds[0]] + rest.issued, rest.result)
  }

  /** Which of `run`'s two channels delivered first. */
  datatype Race = Exited | Killed

  /** The abstract behaviour of one child process: whether it starts, which
      event `run`'s select sees first, what killing it returns and what waiting
      for it returns. */
  datatype Child = Child(start: Outcome, race: Race, kill: Outcome, wait: Outcome)

  /** What `run` did to the child and what it returned. `reaped` means the
      waiting goroutine's result was received, so the child has exited. */
  datatype Supervision = Supervision(started: bool, killed: bool, reaped: bool, result: Outcome)

  /** The wait goroutine wraps a wait error with the command line and output
      (cmderr.New, a foreign library, here only the argv and the cause). */
  function Wrapped(argv: seq<string>, wait: Outcome): Outcome {
    match wait
    case Ok => Ok
    case Fail(e) => Fail(CommandFailed(argv, e))
  }

  /** `run`'s decision rule: refuse a command whose Stdout or Stderr is already
      bound, then start it; if it starts, wait for it, and if the kill channel
      fires first kill it and still wait, preferring the wait error. */
  function Supervise(argv: seq<string>, stdoutSet: bool, stderrSet: bool, child: Child): (r: Supervision)
    ensures stdoutSet ==> r.result == Fail(StdoutAlreadySet)
    ensures !stdoutSet && stderrSet ==> r.result == Fail(StderrAlreadySet)
    ensures r.started <==> !stdoutSet && !stderrSet && child.start.Ok?
    ensures r.reaped <==> r.started
    ensures r.killed <==> r.started && child.race == Killed
    ensures !stdoutSet && !stderrSet && child.start.Fail? ==> r.result == child.start
    ensures r.started && child.wait.Fail? ==> r.result == Fail(CommandFailed(argv, child.wait.error))
    ensures r.started && child.wait.Ok? ==> r.result == (if r.killed then child.kill else Ok)
    ensures r.result.Ok? <==> r.started && child.wait.Ok? && (child.race == Exited || child.kill.Ok?)
  {
    if stdoutSet then Supervision(false, false, false, Fail(StdoutAlreadySet))
    else if stderrSet then Supervision(false, false, false, Fail(StderrAlreadySet))
    else if child.start.Fail? then Supervision(false, false, false, child.start)
    else
      match child.race
      case Exited => Supervision(true, false, true, Wrapped(argv, child.wait))
      case Killed =>
        var waited := Wrapped(argv, child.wait);
        Supervision(true, true, true, if waited.Fail? then waited else child.kill)
  }
}

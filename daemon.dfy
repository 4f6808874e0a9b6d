/**
 * The decisions of the daemon's command-line entry point: reading its pid
 * from the pid file, reporting its status, choosing the signal that stops
 * it, going on with a restart, and the process's exit code. The file
 * system, signals and daemonizing are represented by what they return.
 */
module Daemon {
  import opened Wrappers
  import opened Text

  /** What opening and reading the pid file gives. */
  datatype PidFile = Missing | Unopenable | Unreadable | Holding(contents: string)

  datatype GetPidError = PidFileNotFound | ErrorOpeningPidFile | ErrorReadingPidFile | FailedToParsePid

  /** `_get_inshd_pid`: the file's contents without trailing whitespace, read as a `u64`. */
  function GetPid(file: PidFile): (r: Result<nat, GetPidError>)
    ensures r == Err(PidFileNotFound) <==> file == Missing
    ensures r.Ok? <==> file.Holding? && ParseUnsigned(TrimEnd(file.contents)).Some?
    ensures r.Ok? ==> r.value < WORD_RANGE && ParseUnsigned(TrimEnd(file.contents)) == Some(r.value)
  {
    match file
    case Missing => Err(PidFileNotFound)
    case Unopenable => Err(ErrorOpeningPidFile)
    case Unreadable => Err(ErrorReadingPidFile)
    case Holding(contents) =>
      match ParseUnsigned(TrimEnd(contents))
      case None => Err(FailedToParsePid)
      case Some(pid) => Ok(pid)
  }

  /** Printing digits adds no trailing whitespace to remove. */
  lemma {:induction false} TrimEndPrinted(n: nat, trailing: string)
    requires forall i :: 0 <= i < |trailing| ==> IsWhitespace(trailing[i])
    ensures TrimEnd(NatToString(n) + trailing) == NatToString(n)
    decreases |trailing|
  {
    var s := NatToString(n);
    if trailing == [] {
      assert s + trailing == s;
      assert !IsWhitespace(s[|s| - 1]);
    } else {
      var front := trailing[..|trailing| - 1];
      assert (s + trailing)[..|s + trailing| - 1] == s + front;
      TrimEndPrinted(n, front);
    }
  }

  /** A pid file holding a printed pid and a line ending gives that pid back. */
  lemma PidFileRoundTrip(pid: nat, trailing: string)
    requires pid < WORD_RANGE
    requires forall i :: 0 <= i < |trailing| ==> IsWhitespace(trailing[i])
    ensures GetPid(Holding(NatToString(pid) + trailing)) == Ok(pid)
  {
    TrimEndPrinted(pid, trailing);
    ParsePrinted(pid);
  }

  datatype Status = Running(pid: nat) | NotRunning

  datatype StatusError = StatusFailedToGetPid(error: GetPidError)

  /** `status`: a missing pid file means not running; a readable pid, running with it. */
  function GetStatus(file: PidFile): (r: Result<Status, StatusError>)
    ensures r == Ok(NotRunning) <==> file == Missing
    ensures r.Ok? && r.value.Running? <==> GetPid(file).Ok?
    ensures r.Ok? && r.value.Running? ==> r.value.pid == GetPid(file).value
    ensures r.Err? <==> GetPid(file).Err? && file != Missing
    ensures r.Err? ==> r.error.error == GetPid(file).error
  {
    match GetPid(file)
    case Ok(pid) => Ok(Running(pid))
    case Err(PidFileNotFound) => Ok(NotRunning)
    case Err(e) => Err(StatusFailedToGetPid(e))
  }

  datatype Signal = SIGTERM | SIGKILL

  /** The signal `stop` sends: SIGKILL when forced, else SIGTERM. */
  function SignalFor(force: bool): (s: Signal)
    ensures s == SIGKILL <==> force
  {
    if force then SIGKILL else SIGTERM
  }

  /** One more than the largest process id `pid_t` (a signed 32-bit integer) holds. */
  const PID_RANGE: nat := 0x8000_0000

  datatype StopError =
    | StopNotRunning
    | StopFailedToGetPid(error: GetPidError)
    | ErrorSendingSignal(pid: nat, signal: Signal)
    | WaitError

  /** What `stop` did: the signal it sent, if any, and how it ended. */
  datatype Stopping = Stopping(sent: Option<(nat, Signal)>, result: Result<Signal, StopError>, panicked: bool)

  /**
   * `stop`: read the pid, convert it to a `pid_t` (the conversion unwraps),
   * send the signal, then wait for the process to end. `killOk` is whether
   * sending the signal succeeds and `waitOk` whether the process ends
   * within the timeout. When `panicked` the process ends at the conversion:
   * `sent` is `None` and `result` is a placeholder that stands for no
   * returned value.
   */
  function Stop(file: PidFile, force: bool, killOk: bool, waitOk: bool): (r: Stopping)
    ensures file == Missing ==> r == Stopping(None, Err(StopNotRunning), false)
    ensures r.panicked <==> GetPid(file).Ok? && GetPid(file).value >= PID_RANGE
    ensures r.sent.Some? <==> GetPid(file).Ok? && !r.panicked
    ensures r.sent.Some? ==> r.sent.value == (GetPid(file).value, SignalFor(force))
    ensures r.result.Ok? <==> r.sent.Some? && killOk && waitOk
    ensures r.result.Ok? ==> r.result.value == SignalFor(force)
    ensures r.result == Err(StopNotRunning) <==> file == Missing
  {
    match GetPid(file)
    case Err(PidFileNotFound) => Stopping(None, Err(StopNotRunning), false)
    case Err(e) => Stopping(None, Err(StopFailedToGetPid(e)), false)
    case Ok(pid) =>
      if pid >= PID_RANGE then Stopping(None, Err(WaitError), true)
      else
        var signal := SignalFor(force);
        if !killOk then Stopping(Some((pid, signal)), Err(ErrorSendingSignal(pid, signal)), false)
        else if !waitOk then Stopping(Some((pid, signal)), Err(WaitError), false)
        else Stopping(Some((pid, signal)), Ok(signal), false)
  }

  /** What `start` does to the system, in order. */
  datatype StartEffect = RemoveSocket | RemovePidFile | Daemonize

  /** `start`: with `--force`, the socket and the pid file are removed before daemonizing. */
  function StartEffects(force: bool): (r: seq<StartEffect>)
    ensures |r| > 0 && r[|r| - 1] == Daemonize && Daemonize !in r[..|r| - 1]
    ensures force <==> RemovePidFile in r
    ensures force ==> r == [RemoveSocket, RemovePidFile, Daemonize]
  {
    (if force then [RemoveSocket, RemovePidFile] else []) + [Daemonize]
  }

  datatype RestartError = FailedToStop(error: StopError) | FailedToStart

  /** What `restart` did: how stopping went, whether it started, and how it ended. */
  datatype Restarting = Restarting(stopping: Stopping, started: bool, result: Result<(), RestartError>)

  /**
   * `restart`: stop, where not running is no failure, then start; `startOk`
   * is whether starting succeeds. A stop that panics ends the process: then
   * nothing is started and `result` is a placeholder that stands for no
   * returned value.
   */
  function Restart(file: PidFile, force: bool, killOk: bool, waitOk: bool, startOk: bool): (r: Restarting)
    ensures r.stopping == Stop(file, force, killOk, waitOk)
    ensures r.started <==> !r.stopping.panicked && (r.stopping.result.Ok? || r.stopping.result == Err(StopNotRunning))
    ensures r.result.Ok? <==> r.started && startOk
    ensures r.stopping.panicked ==> !r.started && r.stopping.sent.None?
    ensures r.stopping.result.Err? && r.stopping.result != Err(StopNotRunning) && !r.stopping.panicked ==>
      r.result == Err(FailedToStop(r.stopping.result.error))
  {
    var stopping := Stop(file, force, killOk, waitOk);
    if stopping.panicked then Restarting(stopping, false, Err(FailedToStop(WaitError)))
    else if stopping.result.Err? && stopping.result != Err(StopNotRunning) then
      Restarting(stopping, false, Err(FailedToStop(stopping.result.error)))
    else if !startOk then Restarting(stopping, true, Err(FailedToStart))
    else Restarting(stopping, true, Ok(()))
  }

  /** With no pid file a restart is a start. */
  lemma RestartWhenStopped(force: bool, killOk: bool, waitOk: bool, startOk: bool)
    ensures Restart(Missing, force, killOk, waitOk, startOk).started
    ensures Restart(Missing, force, killOk, waitOk, startOk).stopping.sent.None?
  {
  }

  /**
   * A pid file left behind by a daemon that is gone makes the signal fail,
   * and then a restart does not start, even when forced: the forced start's
   * removal of the stale file is never reached.
   */
  lemma RestartWithStalePidFile(pid: nat, force: bool, waitOk: bool, startOk: bool)
    requires pid < PID_RANGE
    ensures var r := Restart(Holding(NatToString(pid) + "\n"), force, false, waitOk, startOk);
      !r.started && r.result == Err(FailedToStop(ErrorSendingSignal(pid, SignalFor(force))))
  {
    assert IsWhitespace("\n"[0]);
    PidFileRoundTrip(pid, "\n");
  }

  datatype Command = Start(startForce: bool) | StopCommand(stopForce: bool) | RestartCommand(restartForce: bool) | StatusCommand

  /** What the commands depend on outside the process. */
  datatype Environment = Environment(file: PidFile, killOk: bool, waitOk: bool, startOk: bool)

  /** The exit code of a command's result: 0 on success, 1 on failure. */
  function ExitCode<T, E>(r: Result<T, E>): (code: int)
    ensures code == 0 <==> r.Ok?
    ensures code == 1 <==> r.Err?
  {
    if r.Ok? then 0 else 1
  }

  /**
   * `main`: the exit code of each command, or none when the command
   * panicked. Start's own success is `startOk`.
   */
  function ExitOf(command: Command, env: Environment): (code: Option<int>)
    ensures code.Some? ==> code.value == 0 || code.value == 1
    ensures command == StatusCommand ==> code == Some(if GetStatus(env.file).Ok? then 0 else 1)
    ensures command.StopCommand? && env.file == Missing ==> code == Some(1)
  {
    match command
    case Start(_) => Some(if env.startOk then 0 else 1)
    case StopCommand(force) =>
      var s := Stop(env.file, force, env.killOk, env.waitOk);
      if s.panicked then None else Some(ExitCode(s.result))
    case RestartCommand(force) =>
      var r := Restart(env.file, force, env.killOk, env.waitOk, env.startOk);
      if r.stopping.panicked then None else Some(ExitCode(r.result))
    case StatusCommand => Some(ExitCode(GetStatus(env.file)))
  }
}

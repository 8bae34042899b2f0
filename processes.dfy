/** The exit-code decisions of plano's process layer: wait_for_process,
    stop_process, call, call_for_exit_code and call_for_output, over a process
    that is either running or has exited with a code. */
module Processes {
  import opened Wrappers
  import opened Messages
  import opened Plano
  import Text

  /** signal.SIGTERM on Linux; a process killed by it reports -SIGTERM. */
  const SIGTERM: int := 15

  datatype ProcState = Running | Exited(code: int)

  /** How wait_for_process reports a return code. */
  datatype ExitKind = Normal | Terminated | Abnormal

  function Classify(code: int): (k: ExitKind)
    ensures k == Normal <==> code == 0
    ensures k == Terminated <==> code == -SIGTERM
    ensures k == Abnormal <==> code != 0 && code != -SIGTERM
  {
    if code == 0 then Normal
    else if code == -SIGTERM then Terminated
    else Abnormal
  }

  /** The process object plano's _Process wraps; the OS side is not modelled. */
  class Process {
    const pid: nat
    const name: string
    var state: ProcState
    /** Whether terminate() has been called. */
    var terminateSent: bool

    constructor (pid: nat, name: string)
      ensures this.pid == pid && this.name == name && state == Running && !terminateSent
    {
      this.pid := pid;
      this.name := name;
      state := Running;
      terminateSent := false;
    }

    /** Popen.returncode, which poll() returns: None while the process runs. */
    function ReturnCode(): (rc: Option<int>)
      reads this`state
      ensures rc.None? <==> state == Running
    {
      match state
      case Running => None
      case Exited(code) => Some(code)
    }

    /** _Process.__repr__: "process <pid> (<name>)". */
    function Repr(): string {
      "process " + Text.NatToString(pid) + " (" + name + ")"
    }
  }

  /** A repr names one process: equal reprs have the same pid and the same name. */
  lemma ReprIdentifies(p: Process, q: Process)
    requires p.Repr() == q.Repr()
    ensures p.pid == q.pid && p.name == q.name
  {
    var dp, dq := Text.NatToString(p.pid), Text.NatToString(q.pid);
    var r := p.Repr();
    var tp, tq := " (" + p.name + ")", " (" + q.name + ")";
    assert r[8..] == dp + tp && r[8..] == dq + tq by {
      assert r == "process " + dp + tp;
      assert r == "process " + dq + tq;
    }
    DigitsThenSpace(dp, tp, dq, tq);
    Text.NatToStringInjective(p.pid, q.pid);
    assert p.name == tp[2..|tp| - 1] == tq[2..|tq| - 1] == q.name;
  }

  /** Digits followed by a space split only one way. */
  lemma DigitsThenSpace(d: string, t: string, d': string, t': string)
    requires forall k :: 0 <= k < |d| ==> '0' <= d[k] <= '9'
    requires forall k :: 0 <= k < |d'| ==> '0' <= d'[k] <= '9'
    requires t != [] && t[0] == ' ' && t' != [] && t'[0] == ' '
    requires d + t == d' + t'
    ensures d == d' && t == t'
  {
    DigitRunOf(d, t);
    DigitRunOf(d', t');
    assert d == (d + t)[..|d|] && d' == (d' + t')[..|d'|];
    assert t == (d + t)[|d|..] && t' == (d' + t')[|d'|..];
  }

  /** The number of decimal digits s starts with. */
  function DigitRun(s: string): nat {
    if s != [] && '0' <= s[0] <= '9' then 1 + DigitRun(s[1..]) else 0
  }

  lemma {:induction false} DigitRunOf(d: string, rest: string)
    requires forall k :: 0 <= k < |d| ==> '0' <= d[k] <= '9'
    requires rest != [] && rest[0] == ' '
    ensures DigitRun(d + rest) == |d|
  {
    if d != [] {
      assert (d + rest)[1..] == d[1..] + rest;
      DigitRunOf(d[1..], rest);
    }
  }

  /** The line logged about an exited process: by wait_for_process once it has
      waited, or by stop_process for a process that had `already` exited. Only
      a code other than 0 and -SIGTERM is logged at error level. */
  function ExitReport(repr: string, code: int, already: bool): (call: LogCall)
    ensures call.level == (if Classify(code) == Abnormal then Level.Error else Level.Notice)
  {
    match Classify(code)
    case Normal =>
      LogCall(Level.Notice, if already then "{} already exited normally" else "{} exited normally", [repr])
    case Terminated =>
      LogCall(Level.Notice, if already then "{} was already terminated" else "{} exited after termination", [repr])
    case Abnormal =>
      LogCall(Level.Error, if already then "{} already exited with code {}" else "{} exited with code {}",
              [repr, Text.IntToString(code)])
  }

  /** The lines wait_for_process logs about a process that exits with code:
      the waiting notice, then the report. */
  function WaitingLines(env: Env, repr: string, code: int): (lines: seq<string>)
    reads env`threshold
    ensures |lines| <= 2
  {
    env.Emitted(LogCall(Level.Notice, "Waiting for {} to exit", [repr])) + env.Emitted(ExitReport(repr, code, false))
  }

  /** Popen.wait: a running process exits with the code the OS reports
      (`exitCode`); an exited one keeps its code. */
  method Wait(proc: Process, exitCode: int) returns (code: int)
    modifies proc`state
    ensures code == (if old(proc.state).Exited? then old(proc.state).code else exitCode)
    ensures proc.state == Exited(code)
  {
    if proc.state == Running {
      proc.state := Exited(exitCode);
    }
    code := proc.state.code;
  }

  /** wait_for_process: wait, report the outcome (error level for any code other
      than 0 and -SIGTERM, without raising) and return the code. */
  method WaitForProcess(env: Env, proc: Process, exitCode: int) returns (code: int)
    modifies env`output, proc`state
    ensures code == (if old(proc.state).Exited? then old(proc.state).code else exitCode)
    ensures proc.state == Exited(code)
    ensures env.output == Append(old(env.output),
      WaitingLines(env, proc.Repr(), code))
  {
    ghost var before := env.output;
    var waiting := LogCall(Level.Notice, "Waiting for {} to exit", [proc.Repr()]);
    env.Notice(waiting.message, waiting.args);
    code := Wait(proc, exitCode);
    var report := ExitReport(proc.Repr(), code, false);
    Log(env, report);
    AppendTwice(before, env.Emitted(waiting), env.Emitted(report));
  }

  /** Log one call at its own level (error or notice, the levels used here). */
  method Log(env: Env, call: LogCall)
    requires call.level == Level.Error || call.level == Level.Notice
    modifies env`output
    ensures env.output == Append(old(env.output), env.Emitted(call))
  {
    if call.level == Level.Error {
      env.Error(call.message, call.args);
    } else {
      env.Notice(call.message, call.args);
    }
  }

  /** stop_process: a process that has already exited is only reported, and None
      is returned; a running one is sent terminate() and then waited for. */
  method StopProcess(env: Env, proc: Process, exitCode: int) returns (r: Option<int>)
    modifies env`output, proc`state, proc`terminateSent
    ensures old(proc.state).Exited? ==> r == None && proc.state == old(proc.state) && proc.terminateSent == old(proc.terminateSent)
    ensures old(proc.state).Exited? ==> env.output == Append(old(env.output),
      env.Emitted(LogCall(Level.Notice, "Stopping {}", [proc.Repr()]))
      + env.Emitted(ExitReport(proc.Repr(), old(proc.state).code, true)))
    ensures old(proc.state) == Running ==> r == Some(exitCode) && proc.state == Exited(exitCode) && proc.terminateSent
    ensures old(proc.state) == Running ==> env.output == Append(old(env.output),
      env.Emitted(LogCall(Level.Notice, "Stopping {}", [proc.Repr()]))
      + WaitingLines(env, proc.Repr(), exitCode))
  {
    ghost var before := env.output;
    var stopping := LogCall(Level.Notice, "Stopping {}", [proc.Repr()]);
    env.Notice(stopping.message, stopping.args);
    if proc.ReturnCode().Some? {
      var report := ExitReport(proc.Repr(), proc.state.code, true);
      Log(env, report);
      AppendTwice(before, env.Emitted(stopping), env.Emitted(report));
      return None;
    }
    proc.terminateSent := true;
    var code := WaitForProcess(env, proc, exitCode);
    AppendTwice(before, env.Emitted(stopping), WaitingLines(env, proc.Repr(), code));
    r := Some(code);
  }

  /** call_for_exit_code: wait for the process start_process spawned for the
      command and return its code. */
  method CallForExitCode(env: Env, proc: Process, exitCode: int) returns (code: int)
    requires proc.state == Running
    modifies env`output, proc`state
    ensures code == exitCode && proc.state == Exited(exitCode)
    ensures env.output == Append(old(env.output),
      WaitingLines(env, proc.Repr(), exitCode))
  {
    code := WaitForProcess(env, proc, exitCode);
  }

  /** call: raises CalledProcessError, with the code and the command, exactly
      when the exit code is not 0. */
  method Call(env: Env, command: CommandSpec, proc: Process, exitCode: int) returns (r: Outcome<Exception>)
    requires proc.state == Running
    modifies env`output, proc`state
    ensures r.Pass? <==> exitCode == 0
    ensures r.Fail? ==> r.error == CalledProcessError(exitCode, command, None)
    ensures proc.state == Exited(exitCode)
    ensures env.output == Append(old(env.output),
      WaitingLines(env, proc.Repr(), exitCode))
  {
    var code := CallForExitCode(env, proc, exitCode);
    if code != 0 {
      return Outcome.Fail(CalledProcessError(code, command, None));
    }
    r := Pass;
  }

  /** Popen.communicate with standard output piped: wait for the process and
      return what it wrote. */
  method Communicate(proc: Process, written: string, exitCode: int) returns (output: string)
    modifies proc`state
    ensures output == written
    ensures proc.state == (if old(proc.state).Exited? then old(proc.state) else Exited(exitCode))
  {
    var code := Wait(proc, exitCode);
    output := written;
  }

  /** call_for_output: raises CalledProcessError carrying the output exactly when
      poll() gives a code other than None and 0; otherwise returns the output.
      communicate() has waited for the process, so None does not occur. */
  method CallForOutput(command: CommandSpec, proc: Process, written: string, exitCode: int)
    returns (r: Result<string, Exception>)
    requires proc.state == Running
    modifies proc`state
    ensures r.Success? <==> exitCode == 0
    ensures r.Success? ==> r.value == written
    ensures r.Failure? ==> r.error == CalledProcessError(exitCode, command, Some(written))
    ensures proc.state == Exited(exitCode)
  {
    var output := Communicate(proc, written, exitCode);
    var code := proc.ReturnCode();
    if code.Some? && code.value != 0 {
      return Failure(CalledProcessError(code.value, command, Some(output)));
    }
    r := Success(output);
  }
}

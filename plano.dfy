/** plano's process-wide state: the message output and threshold, and the
    current working directory, with the functions that change them and the
    working_dir scope. */
module Plano {
  import opened Wrappers
  import opened Messages
  import Paths

  /** One call of a logging function: its level, template and arguments. */
  datatype LogCall = LogCall(level: Level, message: string, args: seq<string>)

  /** Writing lines to the output: nothing happens when the output is None. */
  function Append(output: Option<seq<string>>, lines: seq<string>): (r: Option<seq<string>>)
    ensures r.None? <==> output.None?
    ensures r.Some? ==> r.value == output.value + lines
    ensures lines == [] ==> r == output
  {
    match output
    case None => None
    case Some(written) =>
      assert written + [] == written;
      Some(written + lines)
  }

  lemma AppendTwice(output: Option<seq<string>>, first: seq<string>, second: seq<string>)
    ensures Append(Append(output, first), second) == Append(output, first + second)
  {
    if output.Some? {
      assert output.value + first + second == output.value + (first + second);
    }
  }

  /** The module globals _message_output and _message_threshold, with sys.argv
      and str.format, plus the process's current directory and the directories
      that exist. */
  class Env {
    /** The index of the threshold level in LEVEL_NAMES. */
    var threshold: nat
    /** The lines written to the current message output, or None when output is off. */
    var output: Option<seq<string>>
    /** The process arguments program_name() reads. */
    const argv: seq<string>
    /** program_name() with no command: it reads only argv, so its value is fixed. */
    const program: Option<string>
    /** str.format. */
    const format: (string, seq<string>) -> string
    /** The current working directory, always absolute. */
    var cwd: string
    /** The directories os.chdir can enter. */
    const dirs: set<string>

    ghost predicate Valid()
      reads this
    {
      threshold < |LEVEL_NAMES| && cwd in dirs && Paths.IsAbsolute(cwd)
    }

    /** At import: output to standard error (nothing written yet), threshold "notice". */
    constructor (argv: seq<string>, format: (string, seq<string>) -> string, cwd: string, dirs: set<string>)
      requires cwd in dirs && Paths.IsAbsolute(cwd)
      ensures Valid()
      ensures threshold == Index(Level.Notice) && output == Some([])
      ensures this.argv == argv && this.format == format && this.cwd == cwd && this.dirs == dirs
      ensures program == Paths.ProgramName(None, argv)
    {
      threshold := Index(Level.Notice);
      output := Some([]);
      this.argv := argv;
      program := Paths.ProgramName(None, argv);
      this.format := format;
      this.cwd := cwd;
      this.dirs := dirs;
    }

    /** The line _format_message builds for this environment. */
    function Line(category: Option<string>, message: string, args: seq<string>): string
    {
      FormatMessage(category, message, args, program, format)
    }

    /** The lines a logging call writes under the current threshold: one or none. */
    function Emitted(call: LogCall): (lines: seq<string>)
      reads this`threshold
      ensures |lines| <= 1
      ensures lines != [] <==> Emits(call.level, threshold)
    {
      if Emits(call.level, threshold) then [Line(Category(call.level), call.message, call.args)] else []
    }

    /** set_message_output. */
    method SetMessageOutput(writeable: Option<seq<string>>)
      modifies this`output
      ensures output == writeable
    {
      output := writeable;
    }

    /** set_message_threshold: a level name stores that level's index; any other
      name fails the assertion and changes nothing. */
    method SetMessageThreshold(level: string) returns (r: Outcome<Exception>)
      requires Valid()
      modifies this`threshold
      ensures Valid()
      ensures r.Pass? <==> level in LEVEL_NAMES
      ensures r.Pass? ==> LEVEL_NAMES[threshold] == level
      ensures r.Fail? ==> r.error == AssertionError && threshold == old(threshold)
    {
      var index := ThresholdOf(level);
      if index.None? {
        return Outcome.Fail(AssertionError);
      }
      threshold := index.value;
      r := Pass;
    }

    /** _print_message: format and write one line unless the output is None. */
    method PrintMessage(category: Option<string>, message: string, args: seq<string>)
      modifies this`output
      ensures output == Append(old(output), [Line(category, message, args)])
    {
      if output.None? {
        return;
      }
      var line := Line(category, message, args);
      output := Some(output.value + [line]);
    }

    /** error: always printed. */
    method Error(message: string, args: seq<string>)
      modifies this`output
      ensures output == Append(old(output), [Line(Some("Error"), message, args)])
      ensures output == Append(old(output), Emitted(LogCall(Level.Error, message, args)))
    {
      PrintMessage(Some("Error"), message, args);
    }

    /** warn: printed when the threshold is at most "warn". */
    method Warn(message: string, args: seq<string>)
      modifies this`output
      ensures threshold <= Index(Level.Warn) ==> output == Append(old(output), [Line(Some("Warn"), message, args)])
      ensures threshold > Index(Level.Warn) ==> output == old(output)
      ensures output == Append(old(output), Emitted(LogCall(Level.Warn, message, args)))
    {
      if threshold <= Index(Level.Warn) {
        PrintMessage(Some("Warn"), message, args);
      }
    }

    /** notice: printed without a category when the threshold is at most "notice". */
    method Notice(message: string, args: seq<string>)
      modifies this`output
      ensures threshold <= Index(Level.Notice) ==> output == Append(old(output), [Line(None, message, args)])
      ensures threshold > Index(Level.Notice) ==> output == old(output)
      ensures output == Append(old(output), Emitted(LogCall(Level.Notice, message, args)))
    {
      if threshold <= Index(Level.Notice) {
        PrintMessage(None, message, args);
      }
    }

    /** debug as written: returns early when the threshold is at most "debug",
      so it prints only when the threshold is above it. */
    method Debug(message: string, args: seq<string>)
      modifies this`output
      ensures threshold <= Index(Level.Debug) ==> output == old(output)
      ensures threshold > Index(Level.Debug) ==> output == Append(old(output), [Line(Some("Debug"), message, args)])
      ensures output == Append(old(output), Emitted(LogCall(Level.Debug, message, args)))
    {
      if threshold <= Index(Level.Debug) {
        return;
      }
      PrintMessage(Some("Debug"), message, args);
    }

    /** debug with the evidently intended test: printed exactly when the threshold
      is "debug", like every other level printed when the threshold is at most its own. */
    method DebugIntended(message: string, args: seq<string>)
      modifies this`output
      ensures IntendedEmits(Level.Debug, threshold) ==> output == Append(old(output), [Line(Some("Debug"), message, args)])
      ensures !IntendedEmits(Level.Debug, threshold) ==> output == old(output)
    {
      if threshold <= Index(Level.Debug) {
        PrintMessage(Some("Debug"), message, args);
      }
    }

    /** fail: log the message at error level, then raise it. */
    method Fail(message: string, args: seq<string>) returns (e: Exception)
      modifies this`output
      ensures output == Append(old(output), [Line(Some("Error"), message, args)])
      ensures e == Failed(message)
    {
      Error(message, args);
      e := Failed(message);
    }

    /** change_dir: log the change, remember the current directory, enter the new
      one (resolved against the current directory) and return the remembered one;
      os.chdir raises for an empty name and when the target is not a directory. */
    method ChangeDir(dir: string) returns (r: Result<string, Exception>)
      requires Valid()
      modifies this`output, this`cwd
      ensures Valid()
      ensures output == Append(old(output), Emitted(LogCall(Level.Notice, "Changing directory to '{0}'", [dir])))
      ensures r.Success? <==> Enterable(old(cwd), dirs, dir)
      ensures r.Success? ==> r.value == old(cwd) && cwd == Paths.Join(old(cwd), dir)
      ensures r.Failure? ==> r.error == OSError(dir) && cwd == old(cwd)
    {
      Notice("Changing directory to '{0}'", [dir]);
      var previous := cwd;
      var target := Paths.Join(cwd, dir);
      if dir == "" || target !in dirs {
        return Failure(OSError(dir));
      }
      cwd := target;
      r := Success(previous);
    }
  }

  /** Whether os.chdir(dir) succeeds from cwd: an empty name never names a
      directory, and any other is resolved against cwd. */
  predicate Enterable(cwd: string, dirs: set<string>, dir: string) {
    dir != "" && Paths.Join(cwd, dir) in dirs
  }

  /** plano.working_dir: a scope that enters a directory and, on leaving, goes
      back to the directory that was current when it was entered. */
  class WorkingDir {
    const dir: string
    var prevDir: Option<string>

    constructor (dir: string)
      ensures this.dir == dir && prevDir == None
    {
      this.dir := dir;
      prevDir := None;
    }

    /** __enter__: change to dir and record the directory returned by change_dir. */
    method Enter(env: Env) returns (r: Result<string, Exception>)
      requires env.Valid()
      modifies this`prevDir, env`output, env`cwd
      ensures env.Valid()
      ensures r.Success? <==> Enterable(old(env.cwd), env.dirs, dir)
      ensures r.Success? ==> r.value == dir && prevDir == Some(old(env.cwd)) && env.cwd == Paths.Join(old(env.cwd), dir)
      ensures r.Failure? ==> r.error == OSError(dir) && prevDir == old(prevDir) && env.cwd == old(env.cwd)
      ensures env.output == Append(old(env.output), env.Emitted(LogCall(Level.Notice, "Changing directory to '{0}'", [dir])))
    {
      var previous := env.ChangeDir(dir);
      if previous.Failure? {
        return Failure(previous.error);
      }
      prevDir := Some(previous.value);
      r := Success(dir);
    }

    /** __exit__: change back to the recorded directory, whatever way the body ended.
      The with statement calls it only after __enter__ returned. */
    method Exit(env: Env)
      requires env.Valid() && prevDir.Some? && prevDir.value in env.dirs && Paths.IsAbsolute(prevDir.value)
      modifies env`output, env`cwd
      ensures env.Valid() && env.cwd == prevDir.value
      ensures env.output == Append(old(env.output), env.Emitted(LogCall(Level.Notice, "Changing directory to '{0}'", [prevDir.value])))
    {
      var back := env.ChangeDir(prevDir.value);
    }
  }

  /** The body of a with statement: it may itself change directory, with
      change_dir(moveTo), and then returns or raises as `outcome` says. */
  datatype Body = Body(moveTo: Option<string>, outcome: Outcome<Exception>)

  /** Whether the body's own change_dir, if it has one, fails. */
  ghost predicate BodyFails(cwd: string, dirs: set<string>, body: Body) {
    body.moveTo.Some? && !Enterable(cwd, dirs, body.moveTo.value)
  }

  /** The directory the body leaves current, started in cwd. */
  ghost function BodyCwd(cwd: string, dirs: set<string>, body: Body): string {
    if body.moveTo.Some? && !BodyFails(cwd, dirs, body) then Paths.Join(cwd, body.moveTo.value) else cwd
  }

  /** How the body ends, started in cwd: with the OSError of its change_dir, or as it says. */
  ghost function BodyOutcome(cwd: string, dirs: set<string>, body: Body): Outcome<Exception> {
    if BodyFails(cwd, dirs, body) then Outcome.Fail(OSError(body.moveTo.value)) else body.outcome
  }

  /** Run the body: its change_dir, if any, then its outcome. */
  method RunBody(env: Env, body: Body) returns (r: Outcome<Exception>)
    requires env.Valid()
    modifies env`output, env`cwd
    ensures env.Valid()
    ensures r == BodyOutcome(old(env.cwd), env.dirs, body)
    ensures env.cwd == BodyCwd(old(env.cwd), env.dirs, body)
    ensures env.output.None? <==> old(env.output).None?
    ensures env.output.Some? ==> old(env.output).value <= env.output.value
  {
    if body.moveTo.None? {
      return body.outcome;
    }
    var moved := env.ChangeDir(body.moveTo.value);
    if moved.Failure? {
      return Outcome.Fail(moved.error);
    }
    r := body.outcome;
  }

  /** The outcome of `with working_dir(ds[0]): with working_dir(ds[1]): ... body`
      started in directory cwd: the body's outcome, or the error of the first
      directory that cannot be entered. */
  ghost function NestedOutcome(cwd: string, dirs: set<string>, ds: seq<string>, body: Body): Outcome<Exception>
    decreases |ds|
  {
    if ds == [] then BodyOutcome(cwd, dirs, body)
    else
      var target := Paths.Join(cwd, ds[0]);
      if Enterable(cwd, dirs, ds[0]) then NestedOutcome(target, dirs, ds[1..], body) else Outcome.Fail(OSError(ds[0]))
  }

  /** Nested working_dir scopes around a body that changes directory or not, and
      returns or raises: every scope that was entered is left in reverse order, so
      the directory ends where it started, whatever the body did. Without a scope
      the body's own change of directory stays. */
  method WithWorkingDirs(env: Env, ds: seq<string>, body: Body) returns (r: Outcome<Exception>)
    requires env.Valid()
    modifies env`output, env`cwd
    ensures env.Valid()
    ensures ds != [] ==> env.cwd == old(env.cwd)
    ensures ds == [] ==> env.cwd == BodyCwd(old(env.cwd), env.dirs, body)
    ensures r == NestedOutcome(old(env.cwd), env.dirs, ds, body)
    ensures env.output.None? <==> old(env.output).None?
    ensures env.output.Some? ==> old(env.output).value <= env.output.value
    decreases |ds|
  {
    if ds == [] {
      r := RunBody(env, body);
      return;
    }
    var scope := new WorkingDir(ds[0]);
    var entered := scope.Enter(env);
    if entered.Failure? {
      return Outcome.Fail(entered.error);
    }
    r := WithWorkingDirs(env, ds[1..], body);
    scope.Exit(env);
  }
}

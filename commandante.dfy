/** commandante.Command: a command-line program's lifecycle. The constructor
    registers the --init-only flag, `init` parses the arguments once, and `main`
    runs init and then run, unless --init-only was given, swallowing a keyboard
    interrupt. argparse is abstracted: its parse is an input (the parsed
    namespace, or the exception parse_args raised). */
module Commandante {
  import opened Wrappers
  import Text

  /** The parsed arguments; Command reads only the init_only field. */
  datatype Namespace = Namespace(initOnly: bool, values: map<string, string>)

  datatype Action = Store | StoreTrue

  /** One add_argument registration. */
  datatype ArgumentSpec = ArgumentSpec(flags: seq<string>, action: Action, help: string)

  /** The flag every command accepts. */
  const INIT_ONLY_FLAG := ArgumentSpec(["--init-only"], StoreTrue, "Initialize then exit")

  /** What `run` does: the base class's run, or a subclass override that
      returns or raises. */
  datatype RunBehaviour = BaseRun | Overridden(outcome: Outcome<Exception>)

  /** How `main` reports an exception: a keyboard interrupt is swallowed, any
      other exception propagates. */
  function Swallow(e: Exception): (r: Outcome<Exception>)
    ensures r.Pass? <==> e == KeyboardInterrupt
    ensures r.Fail? ==> r.error == e
  {
    if e == KeyboardInterrupt then Pass else Fail(e)
  }

  /** Whether main reaches run: init succeeded and --init-only was not given. */
  predicate Runs(initialized: bool, parse: Result<Namespace, Exception>) {
    !initialized && parse.Success? && !parse.value.initOnly
  }

  class Command {
    const name: string
    const homeDir: string
    /** The arguments registered with the parser, in order. */
    var arguments: seq<ArgumentSpec>
    /** The parser's description and epilog (argparse starts them as None). */
    var description: Option<string>
    var epilog: Option<string>
    /** `_args`: None until init has parsed the arguments. */
    var args: Option<Namespace>
    /** The init_only attribute, which exists only once init has set it. */
    var initOnly: Option<bool>
    /** How many times run has been called on this object. */
    var runCalls: nat

    constructor (name: string, homeDir: string)
      ensures this.name == name && this.homeDir == homeDir
      ensures arguments == [INIT_ONLY_FLAG]
      ensures description == None && epilog == None
      ensures args == None && initOnly == None && runCalls == 0
    {
      this.name := name;
      this.homeDir := homeDir;
      description := None;
      epilog := None;
      args := None;
      initOnly := None;
      runCalls := 0;
      arguments := [INIT_ONLY_FLAG];
    }

    method AddArgument(spec: ArgumentSpec)
      modifies this`arguments
      ensures arguments == old(arguments) + [spec]
    {
      arguments := arguments + [spec];
    }

    /** The description setter stores the text with surrounding whitespace removed. */
    method SetDescription(text: string)
      modifies this`description
      ensures description == Some(Text.Strip(text))
    {
      description := Some(Text.Strip(text));
    }

    method SetEpilog(text: string)
      modifies this`epilog
      ensures epilog == Some(Text.Strip(text))
    {
      epilog := Some(Text.Strip(text));
    }

    /** init: fails its assertion when the arguments were already parsed;
        otherwise parses them (parse_args may itself raise) and copies init_only. */
    method Init(parse: Result<Namespace, Exception>) returns (r: Outcome<Exception>)
      modifies this`args, this`initOnly
      ensures old(args).Some? ==> r == Fail(AssertionError) && args == old(args) && initOnly == old(initOnly)
      ensures old(args).None? && parse.Failure? ==>
                r == Fail(parse.error) && args == None && initOnly == old(initOnly)
      ensures old(args).None? && parse.Success? ==>
                r == Pass && args == Some(parse.value) && initOnly == Some(parse.value.initOnly)
      ensures r.Pass? <==> old(args).None? && parse.Success?
    {
      if args.Some? {
        return Fail(AssertionError);
      }
      if parse.Failure? {
        return Fail(parse.error);
      }
      args := Some(parse.value);
      initOnly := Some(parse.value.initOnly);
      r := Pass;
    }

    /** run: the base class raises NotImplementedError; an override returns or raises. */
    method Run(behaviour: RunBehaviour) returns (r: Outcome<Exception>)
      modifies this`runCalls
      ensures runCalls == old(runCalls) + 1
      ensures behaviour == BaseRun ==> r == Fail(NotImplementedError)
      ensures behaviour.Overridden? ==> r == behaviour.outcome
    {
      runCalls := runCalls + 1;
      if behaviour == BaseRun {
        r := Fail(NotImplementedError);
      } else {
        r := behaviour.outcome;
      }
    }

    /** main (named Execute here): init, then run unless --init-only was given; a keyboard interrupt
        from either ends main normally, any other exception propagates. */
    method Execute(parse: Result<Namespace, Exception>, behaviour: RunBehaviour) returns (r: Outcome<Exception>)
      modifies this`args, this`initOnly, this`runCalls
      ensures r.Fail? ==> r.error != KeyboardInterrupt
      ensures runCalls == old(runCalls) + (if Runs(old(args).Some?, parse) then 1 else 0)
      ensures old(args).Some? ==> r == Fail(AssertionError)
      ensures old(args).None? && parse.Failure? ==> r == Swallow(parse.error)
      ensures old(args).None? && parse.Success? && parse.value.initOnly ==> r == Pass
      ensures Runs(old(args).Some?, parse) && behaviour == BaseRun ==> r == Fail(NotImplementedError)
      ensures Runs(old(args).Some?, parse) && behaviour.Overridden? ==>
                r == (if behaviour.outcome.Fail? then Swallow(behaviour.outcome.error) else Pass)
      ensures old(args).Some? || parse.Failure? ==> args == old(args) && initOnly == old(initOnly)
      ensures old(args).None? && parse.Success? ==>
                args == Some(parse.value) && initOnly == Some(parse.value.initOnly)
    {
      var init := Init(parse);
      if init.Fail? {
        return Swallow(init.error);
      }
      if initOnly == Some(true) {
        return Pass;
      }
      var ran := Run(behaviour);
      if ran.Fail? {
        r := Swallow(ran.error);
      } else {
        r := Pass;
      }
    }
  }

  /** A fresh command parses its arguments at most once: the first init succeeds
      whenever parsing does, and a second init on the same object always fails. */
  method InitTwice(name: string, homeDir: string, first: Result<Namespace, Exception>,
                   second: Result<Namespace, Exception>)
    returns (r1: Outcome<Exception>, r2: Outcome<Exception>)
    ensures r1.Pass? <==> first.Success?
    ensures first.Success? ==> r2 == Fail(AssertionError)
    ensures first.Failure? ==> r1 == Fail(first.error) && (r2.Pass? <==> second.Success?)
  {
    var c := new Command(name, homeDir);
    r1 := c.Init(first);
    r2 := c.Init(second);
  }

  /** main on a fresh command: run is called exactly when parsing succeeds without
      --init-only, the base run's NotImplementedError propagates, and main never
      ends in a keyboard interrupt. Any other exception from parsing, such as the
      SystemExit argparse raises for a command line it rejects, propagates, and
      so does any other exception an overriding run raises (an OtherError). */
  method MainOnce(name: string, homeDir: string, parse: Result<Namespace, Exception>, behaviour: RunBehaviour)
    returns (r: Outcome<Exception>, runs: nat)
    ensures runs == (if Runs(false, parse) then 1 else 0)
    ensures r.Fail? ==> r.error != KeyboardInterrupt
    ensures parse.Success? && parse.value.initOnly ==> r == Pass
    ensures Runs(false, parse) && behaviour == BaseRun ==> r == Fail(NotImplementedError)
    ensures parse == Failure(KeyboardInterrupt) ==> r == Pass
    ensures parse.Failure? && parse.error != KeyboardInterrupt ==> r == Fail(parse.error)
    ensures Runs(false, parse) && behaviour.Overridden? ==>
              r == (if behaviour.outcome == Fail(KeyboardInterrupt) then Pass else behaviour.outcome)
  {
    var c := new Command(name, homeDir);
    r := c.Execute(parse, behaviour);
    runs := c.runCalls;
  }
}

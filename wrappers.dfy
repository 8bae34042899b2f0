/** Option and Result values, and the exceptions the modelled code raises. */
module Wrappers {

  datatype Option<+T> = None | Some(value: T)

  datatype Result<+T, +E> = Success(value: T) | Failure(error: E)

  /** The outcome of a call that returns nothing: it returned, or it raised. */
  datatype Outcome<+E> = Pass | Fail(error: E)

  /** A command as handed to the process layer: one string, or a list of arguments. */
  datatype CommandSpec = CommandLine(line: string) | ArgumentList(argv: seq<string>)

  /** The Python exceptions that cross the boundaries of the modelled functions. */
  datatype Exception =
    | AssertionError
    | OSError(path: string)
    | KeyboardInterrupt
    | NotImplementedError
    /** What argparse raises for a command line it rejects. */
    | SystemExit(code: int)
    | CalledProcessError(returncode: int, cmd: CommandSpec, output: Option<string>)
    | Failed(message: string)
    /** Any other exception, such as one an overriding run raises. */
    | OtherError(name: string)
}

# ghost: plano and commandante, modelled in Dafny

`ghost` is a small command-line tool. It is built on two Python helper modules:

- `plano.py` handles logging, paths, files and processes.
- `commandante.py` provides a command base class on top of argparse.

This project models the parts of those modules that make decisions. Each one is stated and proved in Dafny:

- **Messages** (`messages.dfy`, `plano.dfy`). These are the four message levels and the threshold test each logging function applies. `_format_message` builds a line as `program: [Category: ]Message`: the arguments are substituted only when there are some, and the first letter is upper-cased. `plano.dfy` holds the process-wide state as a class `Env`: the message output, the threshold and the current directory. `set_message_threshold`, `error`, `warn`, `notice`, `debug`, `fail` and `change_dir` change that state.
- **Working directories** (`plano.dfy`). The `working_dir` scope records the previous directory on entry and restores it on exit. `WithWorkingDirs` proves that nested scopes unwind to the starting directory. The body inside them may itself change directory, and it may return or raise.
- **Path names** (`paths.dfy`). These are POSIX `os.path.normpath`, `split`, `join` and `splitext` on `/`-separated strings. On top of them sit `parent_dir`, `file_name`, `name_stem` (with its `.tar.gz` case), `name_extension` and `program_name`.
- **Text** (`text.dfy`). This covers the string operations the above rely on: `str.strip`, `str.split()`, first-letter capitalisation and decimal rendering of integers.
- **Sorting and listing** (`order.dfy`, `listing.dfy`).
  - `order.dfy` defines Python's string order. `sorted()` applied to a set is proved to produce the unique strictly increasing listing of that set.
  - `listing.dfy` models `list_dir` and `find`. Each returns the sorted, duplicate-free union of the names that match the glob patterns.
- **Unique ids** (`ids.dfy`). `unique_id` is the hex encoding of a prefix of the random UUID's bytes, and it decodes back to that prefix.
- **Processes** (`processes.dfy`). This covers the exit-code decisions of `wait_for_process`, `stop_process`, `call`, `call_for_exit_code` and `call_for_output`. The process is either `Running` or `Exited(code)`. The log lines name it by its `__repr__` text, `process <pid> (<name>)`, with the pid in decimal.
- **Commands** (`commandante.dfy`). This is the lifecycle of `commandante.Command`:
  - the constructor registers `--init-only`;
  - `init` succeeds at most once;
  - `main` runs `init` and then `run` unless `--init-only` was given, and swallows a keyboard interrupt;
  - the `description` and `epilog` setters strip their text.

Inputs the code takes from outside become parameters:

- the process arguments;
- `str.format` (a function `format`);
- `fnmatch` (a predicate);
- the directory listing and the `os.walk` triples;
- the set of directories `os.chdir` can enter;
- the UUID bytes;
- the exit codes and output the OS reports;
- the result of `argparse`'s `parse_args`.

A Python `assert` on a programmer-supplied constant (the length passed to `unique_id`) becomes a `requires`. An `assert` on run-time state is modelled as the `AssertionError` it raises. That covers:

- the level name given to `set_message_threshold`;
- `is_dir` in `list_dir`;
- `_args is None` in `Command.init`.

Strings are sequences of characters, and whitespace and letter case are ASCII. `str.split()` and `str.strip()` treat characters 9–13, 28–31 and 32 as whitespace, as Python 3's `str` does.

## Model

| member | source | states |
|---|---|---|
| Messages.Index | python/plano.py:47-57 | Each level's index is the position of its name in `_message_levels`, and looking that name up gives back the index |
| Messages.IndexOf | python/plano.py:70 | `tuple.index`: the first position holding the name, or nothing exactly when the name is absent |
| Messages.ThresholdOf | python/plano.py:66-70 | A name gives a threshold exactly when it is one of the four level names, and the stored index names that level |
| Plano.Env.SetMessageThreshold | python/plano.py:66-70 | Succeeds exactly for a level name and then stores that name's index; any other name raises AssertionError and leaves the threshold unchanged |
| Plano.Env.SetMessageOutput | python/plano.py:62-64 | The output becomes the given writeable, or None to silence output |
| Plano.Env.constructor | python/plano.py:59-60 | At import the threshold is "notice" and the output is standard error with nothing written |
| Plano.Env.Emitted | python/plano.py:80-95 | A logging call writes at most one line, and writes one exactly when its level passes the threshold test |
| Plano.Env.Error | python/plano.py:80-81 | error always writes its line with category "Error" |
| Plano.Env.Warn | python/plano.py:83-85 | warn writes a "Warn" line exactly when the threshold is at most "warn", and otherwise leaves the output unchanged |
| Plano.Env.Notice | python/plano.py:87-89 | notice writes a line with no category exactly when the threshold is at most "notice" |
| Plano.Env.Debug | python/plano.py:91-95 | debug as written: nothing at threshold "debug", and a "Debug" line at every higher threshold |
| Plano.Env.DebugIntended | python/plano.py:91-95 | The corrected debug writes its line exactly when the threshold is "debug" |
| Messages.EmitsAsIntendedAboveDebug | python/plano.py:80-89 | For error, warn and notice, the written threshold test is "threshold at most the level's index" |
| Messages.DebugTestInverted | python/plano.py:91-93 | debug's written test is the negation of that rule: suppressed at "debug", printed at "notice" |
| Messages.IntendedThresholdMonotone | python/plano.py:84-92 | Under the intended test, raising the threshold never lets more levels through |
| Messages.Category | python/plano.py:80-95 | Every level prints with its category except notice, which has none |
| Plano.Env.PrintMessage | python/plano.py:111-119 | Appends exactly the formatted line to the output, and does nothing when the output is None |
| Plano.Append | python/plano.py:111-117 | Definition of writing: a None output stays None, and otherwise the lines are added after what was written |
| Plano.AppendTwice | python/plano.py:111-117 | Two writes in a row equal one write of both line lists |
| Messages.FormatMessage | python/plano.py:121-137 | The line is the program prefix, then the category prefix, then the message. The message keeps its length and its tail, and its first letter is no longer lower case but is the same letter |
| Messages.FormatIgnoresFormatterWithoutArgs | python/plano.py:125-126 | Without arguments str.format is never applied |
| Messages.FormatVerbatim | python/plano.py:121-137 | A message with no arguments that does not start with a lower-case letter appears after the prefix unchanged |
| Plano.Env.Fail | python/plano.py:72-78 | fail writes the message at error level and raises an exception carrying the message |
| Text.Capitalize | python/plano.py:128-129 | Only the first character can change. It changes only when it is lower case, and it becomes the upper-case form of the same letter |
| Text.Strip | python/commandante.py:46-62 | `str.strip` never lengthens the text, and its result neither starts nor ends with whitespace |
| Text.StripSlice | python/commandante.py:52 | `str.strip` leaves a slice of the input: everything cut off is whitespace, and the result neither starts nor ends with whitespace |
| Text.StripIdempotent | python/commandante.py:50-53 | Stripping twice is stripping once, so storing a description that was read back changes nothing |
| Text.Words | python/plano.py:199 | `str.split()` produces non-empty words without whitespace |
| Text.WordsOfSpaces | python/plano.py:199 | Text made only of whitespace splits into no words |
| Text.WordsOfWord | python/plano.py:199 | A non-empty run without whitespace is a single word |
| Text.WordsAtSpace | python/plano.py:199 | Splitting at any whitespace character gives the words before it followed by the words after it. With the two lemmas above, this makes every word maximal |
| Text.WordsKeepNonSpace | python/plano.py:199 | The words hold exactly the non-whitespace characters of the command, in order |
| Text.NatToStringValue | python/plano.py:527 | The decimal rendering of a pid reads back to the same number |
| Text.IntToStringInjective | python/plano.py:557 | Different return codes render as different strings in the log line |
| Paths.LastIndex | python/plano.py:169 | The position of the last occurrence of the character, or -1 when there is none |
| Paths.SplitPath | python/plano.py:169 | `os.path.split`: the tail is everything after the last slash. The head is the path before it, less the slashes between them, except that a head of nothing but slashes is kept whole |
| Paths.Join | python/plano.py:390 | `os.path.join`: an absolute second part replaces the first. Otherwise the result is the first part, then a '/' exactly when the first part is non-empty and does not already end with one, then the second part |
| Paths.JoinThenSplitHead | python/plano.py:390 | Splitting join(dir, name), for a plain name and a directory as split leaves heads, gives back both dir and name |
| Paths.JoinThenSplit | python/plano.py:390 | Splitting join(dir, name) for a plain name gives the name back |
| Paths.SplitOnThenJoin | python/plano.py:168 | Splitting at '/' and joining with '/' gives the path back |
| Paths.JoinComponents | python/plano.py:168 | Joining non-empty slash-free components has no double slash and no leading or trailing slash |
| Paths.ResolveComponents | python/plano.py:168 | normpath's component loop keeps only non-empty components without slashes. It drops every ".", keeps ".." only at the front of a relative path, and keeps those properties of what it has already resolved |
| Paths.InitialSlashes | python/plano.py:168 | normpath keeps at most two leading slashes, and keeps some exactly when the path is absolute |
| Paths.NormPath | python/plano.py:168 | `os.path.normpath` never returns an empty path, has double slashes only in its leading run, and keeps the path absolute or relative |
| Paths.NormPathResolved | python/plano.py:168 | A normalised path is ".", or only its leading slashes, or has no trailing slash and components with no "." and with ".." only at the front of a relative path |
| Paths.NormPathIdempotent | python/plano.py:168 | Normalising a normalised path changes nothing |
| Paths.NormPathOfNormal | python/plano.py:168 | Any path made of at most two leading slashes and resolved components is already normal: normpath returns it unchanged |
| Paths.ResolveCancels | python/plano.py:168 | In normpath's component loop a plain name followed by ".." cancels out |
| Paths.NormPathSkipsDot | python/plano.py:168 | normpath drops a "." component after any prefix: `A/./B` normalises as `A/B` does |
| Paths.NormPathCollapses | python/plano.py:168 | normpath collapses a doubled slash after a relative prefix: `A//B` normalises as `A/B` does |
| Paths.NormPathTrailingSlash | python/plano.py:168 | normpath drops a trailing slash from a path that is not all slashes |
| Paths.NormPathCancels | python/plano.py:168 | normpath removes "x/.." after any prefix, for a plain name x: `A/x/../B` normalises as `A/B` does |
| Paths.ParentAndFileNameOfPair | python/plano.py:167-177 | For two plain names a and b, parent_dir("a/b") is a and file_name("a/b") is b |
| Paths.ParentDir | python/plano.py:167-171 | parent_dir is a prefix of the normalised path that leaves room for file_name after it. It has no trailing slash unless it is all slashes |
| Paths.ParentJoinsFileName | python/plano.py:167-177 | Joining parent_dir and file_name rebuilds the normalised path |
| Paths.FileName | python/plano.py:173-177 | file_name never contains a separator |
| Paths.SplitExt | python/plano.py:185 | `os.path.splitext`: stem plus extension is the input. The extension is empty or one dot followed by neither dots nor slashes. It is non-empty exactly when the final component has a dot with a non-dot somewhere before it |
| Paths.NameStem | python/plano.py:179-187 | name_stem is a prefix of file_name |
| Paths.NameExtension | python/plano.py:189-193 | name_extension is a suffix of file_name, empty or a dot with no further dot. It is non-empty exactly when file_name has a dot with a non-dot before it |
| Paths.StemAndExtension | python/plano.py:179-193 | For a name not ending in ".tar.gz", name_stem followed by name_extension is file_name |
| Paths.TarGzName | python/plano.py:179-193 | For "x.tar.gz", name_extension is ".gz" and name_stem is x. When x is all dots it is "x.tar" instead |
| Paths.FirstWithoutEquals | python/plano.py:201-203 | Finds the first word without an '=', or reports that every word has one |
| Paths.ProgramName | python/plano.py:195-203 | The file name of the first word without '=', from the command's words or else the process arguments. It is nothing exactly when every word has an '=' |
| Order.LessIrreflexive | python/plano.py:393 | Python's string order is irreflexive |
| Order.LessTransitive | python/plano.py:393 | Python's string order is transitive |
| Order.LessTotal | python/plano.py:393 | Any two different strings are ordered |
| Order.MinimumExists | python/plano.py:393 | Every non-empty set of strings has a least element |
| Order.SortSet | python/plano.py:393 | `sorted` of a set: strictly increasing, the same elements, each once |
| Order.SortedUnique | python/plano.py:393 | A set has only one strictly increasing listing, so the sorted result is determined |
| Listing.Filter | python/plano.py:443 | Definition of `fnmatch.filter`: it keeps exactly the names that match the pattern |
| Listing.ListDir | python/plano.py:432-445 | A path that is not a directory raises AssertionError. Otherwise the result is sorted and duplicate-free and holds exactly the listed names, or with patterns exactly the listed names that match at least one of them |
| Listing.Defaulted | python/plano.py:382-383 | find uses the pattern "*" when given none, and the given patterns otherwise |
| Listing.EntryHits | python/plano.py:386-391 | Definition of one step of find's loop: one walk entry and pattern contribute join(root, x) for exactly the matching directory and file names x |
| Listing.Find | python/plano.py:379-393 | Sorted and duplicate-free; holds exactly the join(root, x) for walked directory or file names x that match one of the patterns |
| Listing.FindDefaultsToEverything | python/plano.py:382-391 | With no patterns, when "*" matches every name, every walked directory and file is found |
| Ids.HexDigit | python/plano.py:318 | Each nibble becomes a lower-case hex digit whose value is the nibble |
| Ids.Hexlify | python/plano.py:318 | `binascii.hexlify` produces two lower-case hex digits per byte |
| Ids.UnhexlifyHexlify | python/plano.py:318 | Decoding the hex text gives the bytes back |
| Ids.UniqueId | python/plano.py:311-318 | For 1 ≤ length ≤ 16 the id is exactly 2·length lower-case hex digits |
| Ids.UniqueIdDecodes | python/plano.py:311-318 | The id hex-encodes exactly the first `length` bytes of the UUID |
| Ids.UniqueIdInjective | python/plano.py:311-318 | Different UUID prefixes give different ids |
| Plano.Env.ChangeDir | python/plano.py:424-430 | Logs the change, and succeeds exactly when the name is non-empty and the target exists, since `os.chdir("")` raises. On success it returns the previous directory and enters the target; otherwise it raises OSError and the directory is unchanged |
| Plano.WorkingDir.constructor | python/plano.py:448-450 | A new scope has no previous directory |
| Plano.WorkingDir.Enter | python/plano.py:452-454 | Entering succeeds exactly when change_dir does. It then changes to the directory, records the previous one and returns the scope's directory; on failure it changes nothing but the log |
| Plano.WorkingDir.Exit | python/plano.py:456-457 | Leaving goes back to the recorded directory |
| Plano.RunBody | python/plano.py:424-430 | The body may change directory first, failing as change_dir does; then it returns or raises |
| Plano.WithWorkingDirs | python/plano.py:447-457 | Nested scopes around a body end in the starting directory, even when the body changed directory or raised. Their outcome is the body's, or the error of the first directory that cannot be entered. The output is only appended to |
| Processes.Classify | python/plano.py:552-557 | Definition of wait_for_process's three cases: code 0 is normal, -SIGTERM is terminated, and any other code is abnormal |
| Processes.ExitReport | python/plano.py:532-557 | wait_for_process and stop_process log an exited process at error level exactly for a code other than 0 and -SIGTERM, and at notice level otherwise |
| Processes.ReprIdentifies | python/plano.py:526-527 | `__repr__` identifies a process: two processes with the same repr have the same pid and the same name |
| Processes.Process.ReturnCode | python/plano.py:532 | poll() is None exactly while the process runs |
| Processes.Wait | python/plano.py:550 | Waiting leaves the process exited, with the code it already had or the one the OS reports |
| Processes.WaitForProcess | python/plano.py:547-559 | Returns the exit code and leaves the process exited. It logs "waiting" and then the classified report, and does not raise |
| Processes.StopProcess | python/plano.py:529-545 | Logs "Stopping" first. An exited process is then only reported, at the level its code calls for, and None is returned without terminating it. A running one is terminated and waited for, with wait_for_process's lines, and its code is returned |
| Processes.CallForExitCode | python/plano.py:465-470 | Returns the code the process exits with, after logging the waiting notice and the classified report |
| Processes.Call | python/plano.py:459-463 | Returns exactly when the code is 0; otherwise raises CalledProcessError with the code and the command. Either way it logs the same lines as call_for_exit_code |
| Processes.Communicate | python/plano.py:476 | Returns what the process wrote and leaves it exited |
| Processes.CallForOutput | python/plano.py:472-485 | Returns the output exactly when the code is 0; otherwise raises CalledProcessError carrying the code, the command and the output |
| Commandante.Command.constructor | python/commandante.py:23-33 | A new command has no parsed arguments, no description or epilog, has not run, and has `--init-only` registered as a store-true flag |
| Commandante.Command.AddArgument | python/commandante.py:35-36 | The argument is registered after the existing ones |
| Commandante.Command.SetDescription | python/commandante.py:46-53 | The description read back is the stripped text |
| Commandante.Command.SetEpilog | python/commandante.py:55-62 | The epilog read back is the stripped text |
| Commandante.Command.Init | python/commandante.py:64-69 | Raises AssertionError when arguments were already parsed. Otherwise it propagates a parse failure, or stores the parsed arguments and copies init_only. It succeeds exactly when nothing was parsed before and parsing succeeds |
| Commandante.Command.Run | python/commandante.py:71-72 | The base run raises NotImplementedError; an override's outcome is returned. Each call is counted |
| Commandante.Swallow | python/commandante.py:84-85 | A keyboard interrupt ends main normally, and any other exception propagates |
| Commandante.Command.Execute | python/commandante.py:74-85 | Calls run exactly once when init succeeds without --init-only, and not at all otherwise. With --init-only it returns normally. It never ends in a keyboard interrupt, and the base run's NotImplementedError propagates. The parsed arguments and init_only are stored exactly when init succeeds, and are otherwise unchanged |
| Commandante.InitTwice | python/commandante.py:30-69 | On a fresh command the first init succeeds whenever parsing does, and a second init then fails with AssertionError |
| Commandante.MainOnce | python/commandante.py:23-85 | main on a fresh command runs run once exactly when parsing succeeds without --init-only. A keyboard interrupt during parsing or from an overriding run ends it normally. Any other parse exception, such as argparse's SystemExit, propagates, and so does any other exception the override raises |

## Left out

- Writing to a stream: the output is the list of lines written so far. The flush and the `print` call are not modelled. `_print_message` checks the output for None, and that check is kept.
- `str.format` is a foreign function: `format` is a parameter, and the `{0}`/`{}` templates are kept as text. A template `str.format` rejects, raising an exception, is not modelled: `format` always returns a string.
- `_format_message` converts a non-string message with `str()`. Messages here are strings.
- `fail` given an exception instance re-raises it. Here the message is always text, and `fail` raises `Failed(message)`.
- `fnmatch` glob matching is a parameter of `list_dir` and `find`.
- `os.walk`, `os.listdir` and `is_dir` are inputs: a sequence of (root, dirs, files) triples, and an optional set of names.
- Listing.ListDir: the listing is a set, since a directory never holds a name twice. With no patterns the result is `sorted` of that set.
- Plano.Env.ChangeDir: a non-empty name's target is `join(cwd, dir)` without resolving "..", ".", or symbolic links as `os.getcwd` would. Which directories exist is a fixed set.
- The `os.chdir` error is `OSError(dir)`. Its errno and message text are not modelled.
- Processes: spawning (`start_process`, `_Process`, `Popen`), `shlex.split`, `terminate` and the OS signal are not modelled. The process is `Running` or `Exited(code)`, and the code it exits with is a parameter.
- `start_process`'s `notice` lines are not modelled, and neither is the process name that `_Process` derives with `program_name`.
- Processes.CallForOutput: the output is text. Under Python 3 `communicate()` returns bytes, and that type is not modelled.
- Processes.CallForOutput: `poll()` after `communicate()` always sees an exited process, so the `None` case of the test cannot arise here.
- Processes.Call: the lines `start_process` logs before the call are not part of the stated output, since spawning is not modelled.
- `argparse`: parsing and help output are not modelled. `parse_args` is an input, either a parsed namespace or the exception it raised. The default of a store-true flag is not derived from the registration.
- Python 2 `_types.StringTypes` checks: commands and messages are strings or argument lists by construction.
- `exit`, `flush`, `home_dir`, `random_port`, `sleep`, `string_replace`, `find_any_one`, `find_only_one`, `make_dir` and `absolute_path` are not modelled. They are thin wrappers over the operating system, time, randomness or regular expressions.
- The file and archive operations are I/O plumbing and are not modelled:
  - `read`, `write`, `append`, `prepend`, `read_lines`, `write_lines`, `append_lines`, `prepend_lines`, `tail` and `tail_lines`;
  - `copy`, `move`, `rename`, `remove` and `make_link`;
  - the temporary files and directories;
  - `make_archive`, `extract_archive` and `rename_archive`.
- Some of those helpers are broken as written. `write_lines` opens its file for reading, and `append_lines` and `make_temp_file` use an undefined name `string`.
- `ghost.py` (the git commands of the tool itself) is not part of this model.
- Non-ASCII text: case mapping and whitespace are ASCII only.
- Ids.UniqueId: `unique_id`'s default length of 16 is not modelled. Every caller here passes the length.
- Integers are unbounded. Python's are too, so no wrap-around is modelled.

## Findings

| source | as written | input that shows it | evidently intended | confidence | as-written member | corrected member |
|---|---|---|---|---|---|---|
| python/plano.py:91-95 | `debug` returns early when `_message_threshold <= _debug`. So debug messages are suppressed at threshold "debug" and printed at "notice", "warn" and "error" | `set_message_threshold("debug")` then `debug("x")` prints nothing. Under the default threshold "notice", `debug("x")` prints "Debug: X" | Like `warn` and `notice`, print when the threshold is at most the level (`_message_threshold <= _debug`) | not executed | Plano.Env.Debug, Messages.DebugTestInverted | Plano.Env.DebugIntended, Messages.IntendedThresholdMonotone |

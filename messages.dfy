/** plano's message levels, the threshold test of each logging function and the
    line _format_message builds. */
module Messages {
  import opened Wrappers
  import Text

  datatype Level = Debug | Notice | Warn | Error

  /** _message_levels, in threshold order. */
  const LEVEL_NAMES: seq<string> := ["debug", "notice", "warn", "error"]

  /** The name a level goes by in _message_levels. */
  function Name(level: Level): string {
    match level
    case Debug => "debug"
    case Notice => "notice"
    case Warn => "warn"
    case Error => "error"
  }

  /** The level's position in LEVEL_NAMES (`_message_levels.index(name)`), which is
      also the threshold set_message_threshold stores for its name. */
  function Index(level: Level): (i: nat)
    ensures i < |LEVEL_NAMES| && LEVEL_NAMES[i] == Name(level)
    ensures ThresholdOf(Name(level)) == Some(i)
  {
    match level
    case Debug => 0
    case Notice => 1
    case Warn => 2
    case Error => 3
  }

  /** The first position of x in s, if any (tuple.index). */
  function IndexOf(s: seq<string>, x: string): (r: Option<nat>)
    ensures r.Some? ==> r.value < |s| && s[r.value] == x && forall j :: 0 <= j < r.value ==> s[j] != x
    ensures r.None? <==> x !in s
  {
    if s == [] then None
    else if s[0] == x then Some(0)
    else match IndexOf(s[1..], x)
      case None => None
      case Some(i) => Some(i + 1)
  }

  /** The threshold index set_message_threshold stores for a level name; nothing
      for a name that is not a level. */
  function ThresholdOf(name: string): (r: Option<nat>)
    ensures r.Some? <==> name in LEVEL_NAMES
    ensures r.Some? ==> r.value < |LEVEL_NAMES| && LEVEL_NAMES[r.value] == name
  {
    IndexOf(LEVEL_NAMES, name)
  }

  /** Whether a call at this level prints, as the code is written: error always,
      warn and notice when the threshold is at most their index, and debug only
      when the threshold is ABOVE debug (its test returns early at or below it). */
  predicate Emits(level: Level, threshold: nat) {
    match level
    case Error => true
    case Warn => threshold <= Index(Warn)
    case Notice => threshold <= Index(Notice)
    case Debug => !(threshold <= Index(Debug))
  }

  /** The evident intent of a threshold: a level prints when the threshold is at most its index. */
  predicate IntendedEmits(level: Level, threshold: nat) {
    threshold <= Index(level)
  }

  /** For error, warn and notice the written test is the intended one. */
  lemma EmitsAsIntendedAboveDebug(level: Level, threshold: nat)
    requires level != Debug && threshold < |LEVEL_NAMES|
    ensures Emits(level, threshold) <==> IntendedEmits(level, threshold)
  {
  }

  /** For debug the written test is the negation of the intended one: debug
      messages are suppressed at threshold "debug" and printed at every higher one. */
  lemma DebugTestInverted(threshold: nat)
    ensures Emits(Debug, threshold) <==> !IntendedEmits(Debug, threshold)
    ensures !Emits(Debug, Index(Debug)) && Emits(Debug, Index(Notice))
  {
  }

  /** With the intended test, raising the threshold never lets more levels through. */
  lemma IntendedThresholdMonotone(level: Level, lower: nat, higher: nat)
    requires lower <= higher
    ensures IntendedEmits(level, higher) ==> IntendedEmits(level, lower)
  {
  }

  /** The category each logging function passes to _print_message. */
  function Category(level: Level): (c: Option<string>)
    ensures c.None? <==> level == Notice
  {
    match level
    case Debug => Some("Debug")
    case Notice => None
    case Warn => Some("Warn")
    case Error => Some("Error")
  }

  /** program_name() as "{0}".format renders it: None prints as "None". */
  function ProgramLabel(program: Option<string>): string {
    match program
    case None => "None"
    case Some(name) => name
  }

  /** "<category>: " when the category is a non-empty string, nothing otherwise. */
  function CategoryPrefix(category: Option<string>): string {
    if category.Some? && category.value != "" then category.value + ": " else ""
  }

  /** What _format_message puts before the message: the program name, then the category. */
  function LinePrefix(category: Option<string>, program: Option<string>): string {
    ProgramLabel(program) + ": " + CategoryPrefix(category)
  }

  /** The message once its arguments are substituted, which happens only when there are some. */
  function Substituted(message: string, args: seq<string>, format: (string, seq<string>) -> string): string {
    if |args| > 0 then format(message, args) else message
  }

  /** _format_message: the first letter of the substituted message is raised to
      upper case, then the category and the program name are put in front.
      `program` is what program_name() returns for the process arguments and
      `format` stands for str.format. */
  function FormatMessage(category: Option<string>, message: string, args: seq<string>,
                         program: Option<string>, format: (string, seq<string>) -> string): (line: string)
    ensures var prefix := LinePrefix(category, program);
      var text := Substituted(message, args, format);
      && |line| == |prefix| + |text|
      && line[..|prefix|] == prefix
      && (text != [] ==> line[|prefix| + 1..] == text[1..])
      && (text != [] ==> !Text.IsLower(line[|prefix|]) && Text.ToLower(line[|prefix|]) == Text.ToLower(text[0]))
  {
    var text := Substituted(message, args, format);
    var capitalized := Text.Capitalize(text);
    var body := if category.Some? && category.value != "" then category.value + ": " + capitalized else capitalized;
    var line := ProgramLabel(program) + ": " + body;
    assert line == LinePrefix(category, program) + capitalized;
    CapitalizedAfter(LinePrefix(category, program), text);
    line
  }

  lemma CapitalizedAfter(prefix: string, text: string)
    ensures var line := prefix + Text.Capitalize(text);
      && |line| == |prefix| + |text|
      && line[..|prefix|] == prefix
      && (text != [] ==> line[|prefix| + 1..] == text[1..])
      && (text != [] ==> !Text.IsLower(line[|prefix|]) && Text.ToLower(line[|prefix|]) == Text.ToLower(text[0]))
  {
    var c := Text.Capitalize(text);
    var line := prefix + c;
    if text != [] {
      assert line[|prefix|] == c[0];
      assert line[|prefix| + 1..] == c[1..];
    }
  }

  /** Without arguments the formatter is never called. */
  lemma FormatIgnoresFormatterWithoutArgs(category: Option<string>, message: string, program: Option<string>,
                                         f: (string, seq<string>) -> string, g: (string, seq<string>) -> string)
    ensures FormatMessage(category, message, [], program, f) == FormatMessage(category, message, [], program, g)
  {
  }

  /** A message with no arguments and no lower-case first letter appears verbatim. */
  lemma FormatVerbatim(category: Option<string>, message: string, program: Option<string>,
                       f: (string, seq<string>) -> string)
    requires message == [] || !Text.IsLower(message[0])
    ensures FormatMessage(category, message, [], program, f) == LinePrefix(category, program) + message
  {
  }
}

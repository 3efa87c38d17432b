/**
 * The engine log's routing decisions: which messages the verbosity filter
 * lets through, which helper writes at which level, which console stream a
 * line goes to, when the process aborts, and the level names and colours.
 * Verbosity is the enum's underlying uint8, so values outside the named
 * levels can reach the name and colour lookups.
 */
module Log {
  import opened Optional

  type Verbosity = v: int | 0 <= v < 256

  const NoLogging: Verbosity := 0
  const Fatal: Verbosity := 1
  const Error: Verbosity := 2
  const Warning: Verbosity := 3
  const Display: Verbosity := 4
  const LogLevel: Verbosity := 5
  const Verbose: Verbosity := 6
  const VeryVerbose: Verbosity := 7

  /** The escape character that starts every ANSI colour sequence. */
  const Esc: char := 27 as char

  const ColorReset := [Esc] + "[0m"
  const ColorFatal := [Esc] + "[1;31m"
  const ColorError := [Esc] + "[31m"
  const ColorWarning := [Esc] + "[33m"
  const ColorInfo := [Esc] + "[36m"
  const ColorLog := [Esc] + "[37m"
  const ColorVerbose := [Esc] + "[90m"

  /** The logger's static settings. */
  datatype Logger = Logger(minVerbosity: Verbosity, consoleOutput: bool, fileOutput: bool, fileOpen: bool)

  /** The settings at start-up: filter at Display, console and file output on, no file open yet. */
  const Default := Logger(Display, true, true, false)

  datatype Stream = Stdout | Stderr

  /** What one InternalLog call does, apart from formatting the text. */
  datatype Written = Written(
    level: Verbosity,
    levelName: string,
    color: string,
    console: Option<Stream>,
    toFile: bool,
    fatalNote: bool,
    aborts: bool)

  function GetVerbosityString(v: Verbosity): (s: string)
    ensures 1 <= v <= 7 <==> s != "Unknown"
  {
    if v == Fatal then "Fatal"
    else if v == Error then "Error"
    else if v == Warning then "Warning"
    else if v == Display then "Display"
    else if v == LogLevel then "Log"
    else if v == Verbose then "Verbose"
    else if v == VeryVerbose then "VeryVerbose"
    else "Unknown"
  }

  /** The seven named levels have seven distinct names. */
  lemma VerbosityStringsDistinct(a: Verbosity, b: Verbosity)
    requires 1 <= a <= 7 && 1 <= b <= 7 && a != b
    ensures GetVerbosityString(a) != GetVerbosityString(b)
  {
  }

  function GetVerbosityColor(v: Verbosity): (c: string)
    ensures c == ColorReset <==> !(1 <= v <= 7)
  {
    if v == Fatal then ColorFatal
    else if v == Error then ColorError
    else if v == Warning then ColorWarning
    else if v == Display then ColorInfo
    else if v == LogLevel then ColorLog
    else if v == Verbose || v == VeryVerbose then ColorVerbose
    else ColorReset
  }

  /** Verbose and VeryVerbose share a colour; every other pair of named levels differs. */
  lemma VerbosityColors(a: Verbosity, b: Verbosity)
    requires 1 <= a <= 7 && 1 <= b <= 7
    ensures GetVerbosityColor(a) == GetVerbosityColor(b) <==> a == b || (a >= Verbose && b >= Verbose)
  {
    assert ColorFatal[2] != ColorError[2];
    assert ColorError[3] != ColorWarning[3];
    assert ColorError[3] != ColorInfo[3];
    assert ColorError[3] != ColorLog[3];
    assert ColorError[2] != ColorVerbose[2];
    assert ColorWarning[3] != ColorInfo[3];
    assert ColorWarning[3] != ColorLog[3];
    assert ColorInfo[3] != ColorLog[3];
  }

  /**
   * InternalLog: the line is coloured to the console when console output is
   * on, to stderr at Warning or more severe (numerically at most Warning,
   * which includes NoLogging) and to stdout otherwise; to the file when file
   * output is on and the file is open; and a Fatal line adds a note to the
   * file and aborts.
   */
  function InternalLog(l: Logger, v: Verbosity): (w: Written)
    ensures w.level == v
    ensures w.console.Some? <==> l.consoleOutput
    ensures w.console.Some? ==> (w.console.value == Stderr <==> v <= Warning)
    ensures w.toFile <==> l.fileOutput && l.fileOpen
    ensures w.aborts <==> v == Fatal
    ensures w.fatalNote <==> v == Fatal && l.fileOutput && l.fileOpen
  {
    var stream := if v <= Warning then Stderr else Stdout;
    var toFile := l.fileOutput && l.fileOpen;
    Written(v, GetVerbosityString(v), GetVerbosityColor(v),
            if l.consoleOutput then Some(stream) else None,
            toFile, v == Fatal && toFile, v == Fatal)
  }

  /** FLog::Log: written only when its verbosity is at most the minimum. */
  function LogMessage(l: Logger, v: Verbosity): (r: Option<Written>)
    ensures r.Some? <==> v <= l.minVerbosity
    ensures r.Some? ==> r.value.level == v
  {
    if v <= l.minVerbosity then Some(InternalLog(l, v)) else None
  }

  /** The helper functions, each of which writes at a fixed level. */
  datatype Helper = FatalHelper | ErrorHelper | WarningHelper | DisplayHelper | InfoHelper | VerboseHelper

  function HelperLevel(h: Helper): (v: Verbosity)
    ensures 1 <= v <= 6
  {
    match h
    case FatalHelper => Fatal
    case ErrorHelper => Error
    case WarningHelper => Warning
    case DisplayHelper => Display
    case InfoHelper => LogLevel
    case VerboseHelper => Verbose
  }

  /** A helper call goes straight to InternalLog: it is never filtered. */
  function LogWith(l: Logger, h: Helper): (w: Written)
    ensures w.level == HelperLevel(h)
  {
    InternalLog(l, HelperLevel(h))
  }

  function SetVerbosity(l: Logger, v: Verbosity): (r: Logger)
    ensures r.minVerbosity == v
    ensures r.consoleOutput == l.consoleOutput && r.fileOutput == l.fileOutput && r.fileOpen == l.fileOpen
  {
    l.(minVerbosity := v)
  }

  /**
   * The helpers bypass the filter: a Verbose helper call is written even
   * with logging set to NoLogging, where FLog::Log at that level is dropped.
   */
  lemma HelpersBypassFilter(l: Logger, h: Helper)
    ensures LogWith(SetVerbosity(l, NoLogging), h) == InternalLog(l, HelperLevel(h))
    ensures LogMessage(SetVerbosity(l, NoLogging), HelperLevel(h)).None?
  {
  }

  /** Info writes at level Log, one past the default filter: FLog::Log at that level is dropped by default. */
  lemma InfoIsLogLevel()
    ensures LogWith(Default, InfoHelper).levelName == "Log"
    ensures LogMessage(Default, LogLevel).None?
    ensures LogMessage(Default, Display).Some?
  {
  }

  /** A Fatal line always aborts, from the helper or from FLog::Log unless the filter is NoLogging. */
  lemma FatalAborts(l: Logger)
    ensures LogWith(l, FatalHelper).aborts
    ensures l.minVerbosity != NoLogging ==> LogMessage(l, Fatal).Some? && LogMessage(l, Fatal).value.aborts
    ensures forall h: Helper :: h != FatalHelper ==> !LogWith(l, h).aborts
  {
  }

  /**
   * FLog::Log at NoLogging passes every filter, goes to stderr, and is
   * labelled "Unknown" in the reset colour.
   */
  lemma NoLoggingIsWritten(l: Logger)
    requires l.consoleOutput
    ensures LogMessage(l, NoLogging).Some?
    ensures LogMessage(l, NoLogging).value.console == Some(Stderr)
    ensures LogMessage(l, NoLogging).value.levelName == "Unknown"
    ensures LogMessage(l, NoLogging).value.color == ColorReset
  {
  }

  /** Raising the minimum never drops a message that was written before. */
  lemma FilterMonotone(l: Logger, v: Verbosity, higher: Verbosity)
    requires l.minVerbosity <= higher
    ensures LogMessage(l, v).Some? ==> LogMessage(SetVerbosity(l, higher), v).Some?
  {
  }
}

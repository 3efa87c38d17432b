/**
 * The console panel's log buffer: a double-ended queue bounded at 1000
 * entries that drops its oldest entry when a new one overflows it, the
 * auto-scroll latch, and the colour of each log level.
 */
module ConsolePanel {
  import B = UIBase

  datatype LogLevel = Info | Warning | Error | Verbose

  /** One console line; the timestamp is always the placeholder 0. */
  datatype LogEntry = LogEntry(message: string, level: LogLevel, timestamp: real)

  const MaxLogEntries := 1000

  datatype Console = Console(
    window: B.Window,
    logs: seq<LogEntry>,
    autoScroll: bool,
    scrollToBottom: bool)

  const Title := "Output Log"

  /**
   * The constructor: a resizable, movable window titled "Output Log" whose
   * log holds the two start-up lines, in order, both at Info.
   */
  function NewConsole(): (c: Console)
    ensures c.window.title == Title && c.window.resizable && c.window.movable
    ensures |c.logs| == 2
    ensures c.logs[0] == LogEntry("Console initialized", Info, 0.0)
    ensures c.logs[1] == LogEntry("Ready for commands", Info, 0.0)
    ensures c.autoScroll && c.scrollToBottom
  {
    var window := B.EmptyWindow.(title := Title, resizable := true, movable := true);
    var empty := Console(window, [], true, false);
    AddLog(AddLog(empty, "Console initialized", Info), "Ready for commands", Info)
  }

  /**
   * AddLog: the entry goes at the back with timestamp 0; if that takes the
   * log past 1000 entries the front one is dropped. With auto-scroll on,
   * the view is asked to scroll to the bottom; otherwise that request is
   * left as it was.
   */
  function AddLog(c: Console, message: string, level: LogLevel): (r: Console)
    ensures |r.logs| > 0 && r.logs[|r.logs| - 1] == LogEntry(message, level, 0.0)
    ensures |c.logs| < MaxLogEntries ==> r.logs == c.logs + [LogEntry(message, level, 0.0)]
    ensures |c.logs| >= MaxLogEntries ==> r.logs == c.logs[1..] + [LogEntry(message, level, 0.0)]
    ensures |c.logs| <= MaxLogEntries ==> |r.logs| <= MaxLogEntries
    ensures r.scrollToBottom == (c.autoScroll || c.scrollToBottom)
    ensures r.window == c.window && r.autoScroll == c.autoScroll
  {
    var pushed := c.logs + [LogEntry(message, level, 0.0)];
    var logs := if |pushed| > MaxLogEntries then pushed[1..] else pushed;
    assert |pushed| > MaxLogEntries ==> pushed[1..] == c.logs[1..] + [LogEntry(message, level, 0.0)];
    c.(logs := logs, scrollToBottom := if c.autoScroll then true else c.scrollToBottom)
  }

  function ClearLogs(c: Console): (r: Console)
    ensures r.logs == []
    ensures r.window == c.window && r.autoScroll == c.autoScroll && r.scrollToBottom == c.scrollToBottom
  {
    c.(logs := [])
  }

  /** The last `n` elements of `s` (all of it when it is shorter). */
  function LastN<T>(s: seq<T>, n: nat): (r: seq<T>)
    ensures |r| == if |s| <= n then |s| else n
    ensures r == s[|s| - |r|..]
  {
    if |s| <= n then s else s[|s| - n..]
  }

  /** AddLog applied to each (message, level) in turn. */
  function AddLogs(c: Console, entries: seq<(string, LogLevel)>): (r: Console)
    decreases |entries|
  {
    if |entries| == 0 then c
    else AddLogs(AddLog(c, entries[0].0, entries[0].1), entries[1..])
  }

  /** The entries AddLog makes of the given (message, level) pairs. */
  function AsEntries(entries: seq<(string, LogLevel)>): (r: seq<LogEntry>)
    ensures |r| == |entries|
    decreases |entries|
  {
    if |entries| == 0 then [] else [LogEntry(entries[0].0, entries[0].1, 0.0)] + AsEntries(entries[1..])
  }

  lemma LastNStep<T>(s: seq<T>, x: T, n: nat)
    requires n > 0
    ensures LastN(LastN(s, n) + [x], n) == LastN(s + [x], n)
  {
    var a := LastN(LastN(s, n) + [x], n);
    var b := LastN(s + [x], n);
    assert |a| == |b|;
    var t := LastN(s, n);
    forall k | 0 <= k < |a|
      ensures a[k] == b[k]
    {
      if k < |a| - 1 {
        assert a[k] == (t + [x])[|t| + 1 - |a| + k];
        assert t[|t| + 1 - |a| + k] == s[|s| - |t| + |t| + 1 - |a| + k];
      }
    }
  }

  /** One AddLog on a log within capacity keeps the last 1000 entries. */
  lemma AddLogIsLastN(c: Console, message: string, level: LogLevel)
    requires |c.logs| <= MaxLogEntries
    ensures AddLog(c, message, level).logs == LastN(c.logs + [LogEntry(message, level, 0.0)], MaxLogEntries)
  {
    var pushed := c.logs + [LogEntry(message, level, 0.0)];
    if |pushed| > MaxLogEntries {
      assert pushed[1..] == pushed[|pushed| - MaxLogEntries..];
    }
  }

  /**
   * The buffer is a sliding window: however many lines are added, the log
   * is exactly the last 1000 of everything ever added, in order.
   */
  lemma {:induction false} LogIsLastThousand(c: Console, entries: seq<(string, LogLevel)>)
    requires |c.logs| <= MaxLogEntries
    ensures AddLogs(c, entries).logs == LastN(c.logs + AsEntries(entries), MaxLogEntries)
    decreases |entries|
  {
    if |entries| == 0 {
      assert c.logs + AsEntries(entries) == c.logs;
    } else {
      var e := LogEntry(entries[0].0, entries[0].1, 0.0);
      var c1 := AddLog(c, entries[0].0, entries[0].1);
      var rest := AsEntries(entries[1..]);
      calc {
        AddLogs(c, entries).logs;
        AddLogs(c1, entries[1..]).logs;
        { LogIsLastThousand(c1, entries[1..]); }
        LastN(c1.logs + rest, MaxLogEntries);
        { AddLogIsLastN(c, entries[0].0, entries[0].1); }
        LastN(LastN(c.logs + [e], MaxLogEntries) + rest, MaxLogEntries);
        { LastNOfLastN(c.logs + [e], rest, MaxLogEntries); }
        LastN((c.logs + [e]) + rest, MaxLogEntries);
        { assert (c.logs + [e]) + rest == c.logs + ([e] + rest); }
        LastN(c.logs + AsEntries(entries), MaxLogEntries);
      }
    }
  }

  /** Trimming before appending more and trimming again is the same as trimming once. */
  lemma {:induction false} LastNOfLastN<T>(s: seq<T>, t: seq<T>, n: nat)
    requires n > 0
    ensures LastN(LastN(s, n) + t, n) == LastN(s + t, n)
    decreases |t|
  {
    if |t| == 0 {
      assert LastN(s, n) + t == LastN(s, n);
      assert s + t == s;
    } else {
      var init := t[..|t| - 1];
      var x := t[|t| - 1];
      assert t == init + [x];
      LastNOfLastN(s, init, n);
      assert LastN(s, n) + t == (LastN(s, n) + init) + [x];
      assert s + t == (s + init) + [x];
      LastNStep(LastN(s, n) + init, x, n);
      LastNStep(s + init, x, n);
    }
  }

  datatype Rgba = Rgba(r: real, g: real, b: real, a: real)

  /** GetLogColor: Info white, Warning yellow, Error red, Verbose grey; always opaque. */
  function GetLogColor(level: LogLevel): (c: Rgba)
    ensures c.a == 1.0
    ensures c.r > 0.0
    ensures level == Info <==> c == Rgba(1.0, 1.0, 1.0, 1.0)
    ensures level == Warning <==> c == Rgba(1.0, 1.0, 0.0, 1.0)
    ensures level == Error <==> c == Rgba(1.0, 0.0, 0.0, 1.0)
    ensures level == Verbose <==> c == Rgba(0.7, 0.7, 0.7, 1.0)
  {
    match level
    case Info => Rgba(1.0, 1.0, 1.0, 1.0)
    case Warning => Rgba(1.0, 1.0, 0.0, 1.0)
    case Error => Rgba(1.0, 0.0, 0.0, 1.0)
    case Verbose => Rgba(0.7, 0.7, 0.7, 1.0)
  }
}

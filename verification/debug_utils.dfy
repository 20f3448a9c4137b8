/** The in-memory part of the client's debug logger (`client/debug-utils.js`): the
    bounded log buffer, the level filter and console method, and the trimmed list of
    stored errors. Timestamps, stack traces, the attached data, the console itself,
    the debug panel and the browser storage are not modelled; the stored error list
    is a field. */
module DebugUtils {
  import opened Common

  /** The capacity of the in-memory log (`maxLogs`). */
  const MaxLogs := 1000

  /** How many stored errors are kept. */
  const MaxStoredErrors := 50

  datatype LogEntry = LogEntry(level: string, message: string, category: string)

  /** The numeric rank of a known level name. */
  function LevelRank(level: string): Option<int> {
    if level == "debug" then Some(0)
    else if level == "info" then Some(1)
    else if level == "warn" then Some(2)
    else if level == "error" then Some(3)
    else None
  }

  /** `levels[level] || 1`: an unknown level and the rank 0 of `debug` both become 1. */
  function EffectiveRank(level: string): (r: int)
    ensures 1 <= r <= 3
    ensures LevelRank(level).Some? && LevelRank(level).value != 0 ==> r == LevelRank(level).value
    ensures r == 1 <==> level !in {"warn", "error"}
  {
    match LevelRank(level)
    case Some(v) => if v != 0 then v else 1
    case None => 1
  }

  /** `shouldLog(level)` under the configured `logLevel`. */
  function ShouldLog(logLevel: string, level: string): (r: bool)
    ensures level == "error" ==> r
    ensures logLevel !in {"warn", "error"} ==> r
    ensures r <==> EffectiveRank(level) >= EffectiveRank(logLevel)
  {
    EffectiveRank(level) >= EffectiveRank(logLevel)
  }

  /** Because of `|| 1`, a `debug` message is filtered exactly like an `info` one, and
      so is a message of an unknown level. */
  lemma DebugLikeInfo(logLevel: string, level: string)
    requires level !in {"warn", "error"}
    ensures ShouldLog(logLevel, "debug") == ShouldLog(logLevel, "info") == ShouldLog(logLevel, level)
  {
  }

  /** A message that passes the filter passes it at every higher rank. */
  lemma ShouldLogMonotone(logLevel: string, level: string, higher: string)
    requires LevelRank(level).Some? && LevelRank(higher).Some? && LevelRank(level).value <= LevelRank(higher).value
    ensures ShouldLog(logLevel, level) ==> ShouldLog(logLevel, higher)
  {
  }

  /** `getConsoleMethod(level)`: the four known levels map to the console method of
      the same name, anything else to `log`. */
  function GetConsoleMethod(level: string): (r: string)
    ensures LevelRank(level).Some? ==> r == level
    ensures LevelRank(level).None? ==> r == "log"
  {
    if level in {"debug", "info", "warn", "error"} then level else "log"
  }

  /** The level `logValidation` logs at. */
  function ValidationLevel(isValid: bool): (r: string)
    ensures isValid ==> r == "info"
    ensures !isValid ==> r == "warn"
  {
    if isValid then "info" else "warn"
  }

  /** A failed validation is shown whenever a passing one is, and under the default
      `info` level both are shown. */
  lemma ValidationVisibility(logLevel: string)
    ensures ShouldLog(logLevel, ValidationLevel(true)) ==> ShouldLog(logLevel, ValidationLevel(false))
    ensures ShouldLog("info", ValidationLevel(true)) && ShouldLog("info", ValidationLevel(false))
  {
  }

  /** The array trimming of `saveErrorToStorage`: the entry is pushed, and when the list
      is longer than 50 its oldest entries are spliced off. */
  method KeepRecentErrors(existing: seq<LogEntry>, entry: LogEntry) returns (r: seq<LogEntry>)
    ensures |r| == if |existing| < MaxStoredErrors then |existing| + 1 else MaxStoredErrors
    ensures r == (existing + [entry])[|existing| + 1 - |r|..]
    ensures r[|r| - 1] == entry
  {
    r := existing + [entry];
    if |r| > MaxStoredErrors {
      r := r[|r| - MaxStoredErrors..];
    }
  }

  /** The buffer after `logs.push(entry)` and, when it then exceeds `maxLogs`,
      `logs.shift()`: the entry is last, a buffer below capacity only grows, and a
      full one loses exactly its oldest entry. */
  function Buffered(logs: seq<LogEntry>, entry: LogEntry): (r: seq<LogEntry>)
    requires |logs| <= MaxLogs
    ensures |r| <= MaxLogs && |r| > 0 && r[|r| - 1] == entry
    ensures |logs| < MaxLogs ==> r == logs + [entry]
    ensures |logs| == MaxLogs ==> r == logs[1..] + [entry]
  {
    var pushed := logs + [entry];
    if |pushed| > MaxLogs then pushed[1..] else pushed
  }

  /** The logger. */
  class DebugLog {
    /** The configured level (`getLogLevel`, read from the page or storage). */
    const logLevel: string
    /** The in-memory log, oldest first. */
    var logs: seq<LogEntry>
    /** The error list kept in storage under `cardGameErrorLogs`. */
    var storedErrors: seq<LogEntry>

    predicate Valid()
      reads this
    {
      |logs| <= MaxLogs
    }

    /** The constructor; in debug mode it logs that debug mode is on. */
    constructor(logLevel: string, isDebugMode: bool, storedErrors: seq<LogEntry>)
      ensures Valid() && this.logLevel == logLevel && this.storedErrors == storedErrors
      ensures isDebugMode ==> logs == [LogEntry("info", "Debug-Modus aktiviert", "general")]
      ensures !isDebugMode ==> logs == []
    {
      this.logLevel := logLevel;
      logs := [];
      this.storedErrors := storedErrors;
      new;
      if isDebugMode {
        var _ := Log("info", "Debug-Modus aktiviert", "general");
      }
    }

    /** `log(level, message, data, category)`: the entry is appended, the oldest entry
        is dropped when the log overflows, an error is also stored, and the console
        method used is returned when the level passes the filter. */
    method Log(level: string, message: string, category: string) returns (console: Option<string>)
      requires Valid()
      modifies this
      ensures Valid()
      ensures logs == Buffered(old(logs), LogEntry(level, message, category))
      ensures |logs| > 0 && logs[|logs| - 1] == LogEntry(level, message, category)
      ensures |old(logs)| < MaxLogs ==> logs == old(logs) + [LogEntry(level, message, category)]
      ensures |old(logs)| == MaxLogs ==> logs == old(logs)[1..] + [LogEntry(level, message, category)]
      ensures level == "error" ==>
        |storedErrors| == (if |old(storedErrors)| < MaxStoredErrors then |old(storedErrors)| + 1 else MaxStoredErrors) &&
        storedErrors == (old(storedErrors) + [LogEntry(level, message, category)])[|old(storedErrors)| + 1 - |storedErrors|..]
      ensures level != "error" ==> storedErrors == old(storedErrors)
      ensures console.Some? <==> ShouldLog(logLevel, level)
      ensures console.Some? ==> console.value == GetConsoleMethod(level)
    {
      var entry := LogEntry(level, message, category);
      logs := Buffered(logs, entry);
      console := if ShouldLog(logLevel, level) then Some(GetConsoleMethod(level)) else None;
      if level == "error" {
        storedErrors := KeepRecentErrors(storedErrors, entry);
      }
    }

    /** `logValidation(isValid, message, data)`: logged in the `validation` category,
        at `info` when valid and at `warn` otherwise. */
    method LogValidation(isValid: bool, message: string) returns (console: Option<string>)
      requires Valid()
      modifies this
      ensures Valid()
      ensures logs == Buffered(old(logs), LogEntry(ValidationLevel(isValid), "Validation: " + message, "validation"))
      ensures storedErrors == old(storedErrors)
      ensures console.Some? <==> ShouldLog(logLevel, ValidationLevel(isValid))
      ensures console.Some? ==> console.value == GetConsoleMethod(ValidationLevel(isValid))
    {
      console := Log(ValidationLevel(isValid), "Validation: " + message, "validation");
    }
  }
}

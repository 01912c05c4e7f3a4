/** The slice of Python's `logging` that the sleuth relies on: numeric
    levels, a logger's own and effective level, its handlers, and
    `isEnabledFor`. Also what the sleuth finally emits: a record passed to
    the logger, or a line printed to standard output. */
module PyLogging {
  import Decimal

  const NOTSET: int := 0
  const DEBUG: int := 10
  const INFO: int := 20
  const WARNING: int := 30
  const ERROR: int := 40
  const CRITICAL: int := 50

  /** A handler object; `id` stands for its identity. */
  datatype Handler = Handler(id: nat, level: int)

  /** A logger: its own level (NOTSET when never set), the effective level
      inherited from the nearest ancestor whose level is set (NOTSET if
      none is), and its handlers in the order they were added. */
  datatype Logger = Logger(name: string, level: int, inherited: int, handlers: seq<Handler>)

  /** One output of the sleuth: `logger.log(level, message)` or `print(message)`. */
  datatype Emission = Logged(level: int, message: string) | Printed(message: string)

  /** `Logger.getEffectiveLevel()` */
  function EffectiveLevel(lg: Logger): int {
    if lg.level != NOTSET then lg.level else lg.inherited
  }

  /** `Logger.isEnabledFor(level)`. It first refuses every level at or below
      the manager's `disable` threshold, which stays at its default 0, so a
      level of NOTSET or below is never enabled. */
  predicate IsEnabledFor(lg: Logger, level: int) {
    level > NOTSET && level >= EffectiveLevel(lg)
  }

  /** `Logger.setLevel(level)` */
  function SetLevel(lg: Logger, level: int): (r: Logger)
    ensures r.level == level && EffectiveLevel(r) == (if level != NOTSET then level else lg.inherited)
    ensures r.name == lg.name && r.inherited == lg.inherited && r.handlers == lg.handlers
  {
    lg.(level := level)
  }

  /** `Logger.addHandler(h)`: a handler already attached is not added again. */
  function AddHandler(lg: Logger, h: Handler): (r: Logger)
    ensures h in r.handlers
    ensures |lg.handlers| <= |r.handlers| <= |lg.handlers| + 1 && r.handlers[..|lg.handlers|] == lg.handlers
    ensures forall g :: g in r.handlers ==> g in lg.handlers || g == h
    ensures r.name == lg.name && r.level == lg.level && r.inherited == lg.inherited
  {
    if h in lg.handlers then lg else lg.(handlers := lg.handlers + [h])
  }

  /** The sleuth's notion of a logger that will actually emit: an effective
      level other than NOTSET and at least one attached handler whose own
      level is set. */
  predicate LoggingOn(lg: Logger) {
    EffectiveLevel(lg) != NOTSET &&
    exists k :: 0 <= k < |lg.handlers| && lg.handlers[k].level != NOTSET
  }

  /** `_is_logging_on`: the handler scan with `for ... else`. */
  method IsLoggingOn(lg: Logger) returns (on: bool)
    ensures on == LoggingOn(lg)
  {
    on := EffectiveLevel(lg) != NOTSET;
    if on {
      var broke := false;
      var i := 0;
      while i < |lg.handlers|
        invariant 0 <= i <= |lg.handlers|
        invariant forall k :: 0 <= k < i ==> lg.handlers[k].level == NOTSET
      {
        if lg.handlers[i].level != NOTSET {
          broke := true;
          break;
        }
        i := i + 1;
      }
      if !broke {
        on := false;
      }
    }
  }

  /** `logging.getLevelName(level)` for a numeric level. */
  function LevelName(level: int): string {
    if level == CRITICAL then "CRITICAL"
    else if level == ERROR then "ERROR"
    else if level == WARNING then "WARNING"
    else if level == INFO then "INFO"
    else if level == DEBUG then "DEBUG"
    else if level == NOTSET then "NOTSET"
    else "Level " + Decimal.IntToString(level)
  }
}

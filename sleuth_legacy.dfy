/** The older `SysPathSleuth` of the `syspath_sleuth` package. It reports
    mutating calls like the newer revision, with these differences: a printed
    message carries a level prefix and a stray closing parenthesis, the
    `config_logger` diagnostic fires in the opposite case (and always for a
    handler at NOTSET), the frame's file
    name is shown as it is, there is no kill switch, and the activation
    reports go out at WARNING with the full path. */
module LegacySleuth {
  import opened Wrappers
  import opened PyPath
  import opened Host
  import opened PyRepr
  import opened PyList
  import opened PyLogging
  import Decimal
  import Sleuth

  const USER_SITE_MESSAGE := "SysPathSleuth is installed in user site packages: "
  const SYSTEM_SITE_MESSAGE := "SysPathSleuth is installed in system site packages: "

  /** `_inform_user`: as in the newer revision, except that the printed
      line is "<LEVELNAME>: <message>)". */
  function Inform(lg: Logger, message: string, level: int): (e: Emission)
    ensures e.Logged? <==> LoggingOn(lg) && IsEnabledFor(lg, level)
    ensures e.Logged? ==> e == Logged(level, message)
    ensures e.Printed? ==> e.message == LevelName(level) + ": " + message + ")"
  {
    if LoggingOn(lg) && IsEnabledFor(lg, level) then Logged(level, message)
    else Printed(LevelName(level) + ": " + message + ")")
  }

  /** The frame's file name appears unshortened. */
  function WhereMessage(m: Mutation, frame: Sleuth.Frame): string {
    "sys.path." + Action(m) + ArgsRepr(Args(m)) + " from " +
    ToString(frame.filename) + ":" + Decimal.IntToString(frame.lineno)
  }

  /** What `_where` emits for one call: one message exactly when the frame
      resolves and logging is off or INFO is enabled. */
  function WhereReport(lg: Logger, m: Mutation, caller: Option<Sleuth.Frame>): (r: seq<Emission>)
    ensures |r| == (if caller.Some? && Sleuth.InspectsFrame(lg) then 1 else 0)
    ensures |r| == 1 ==> ((r[0].Logged? <==> LoggingOn(lg)) &&
      (r[0].Logged? ==> r[0] == Logged(INFO, WhereMessage(m, caller.value))) &&
      (r[0].Printed? ==> r[0].message == "INFO: " + WhereMessage(m, caller.value) + ")"))
  {
    if Sleuth.InspectsFrame(lg) && caller.Some? then
      var message := WhereMessage(m, caller.value);
      InfoPrinted(message);
      [Inform(lg, message, INFO)]
    else []
  }

  /** The printed form of an INFO message. */
  lemma InfoPrinted(message: string)
    ensures LevelName(INFO) + ": " + message + ")" == "INFO: " + message + ")"
  {
    assert LevelName(INFO) + ": " == "INFO: ";
  }

  function ConfigMessage(lg: Logger, h: Handler): string {
    lg.name + "'s logger level (" + LevelName(EffectiveLevel(lg)) +
    ") is not sufficient to leverage passed handler's level (" + Decimal.IntToString(h.level) + ") yet."
  }

  /** The self-diagnostic: emitted when the configured logger is not enabled
      for the handler's level, that is when the handler's level is NOTSET or
      below, or below the logger's effective level. */
  function ConfigReport(lg: Logger, handler: Option<Handler>, level: int): (r: seq<Emission>)
    ensures |r| <= 1
    ensures |r| == 1 <==>
      (handler.Some? &&
       (handler.value.level <= NOTSET || handler.value.level < EffectiveLevel(Sleuth.Configured(lg, handler, level))))
  {
    var cfg := Sleuth.Configured(lg, handler, level);
    if handler.Some? && !IsEnabledFor(cfg, handler.value.level) then
      [Inform(cfg, ConfigMessage(cfg, handler.value), INFO)]
    else []
  }

  /** The two revisions' diagnostics fire in opposite cases for a handler
      whose level is set: when its level differs from the logger's effective
      level exactly one revision complains, and neither does when they are
      equal. The older revision always complains about a handler at NOTSET or
      below, and the newer one does too when the effective level is lower
      still. Without a handler neither complains. */
  lemma ConfigDiagnosticsOpposite(lg: Logger, handler: Option<Handler>, level: int)
    ensures handler.None? ==> |Sleuth.ConfigReport(lg, handler, level)| == 0 && |ConfigReport(lg, handler, level)| == 0
    ensures handler.Some? && handler.value.level > NOTSET ==>
      |Sleuth.ConfigReport(lg, handler, level)| + |ConfigReport(lg, handler, level)| ==
      (if handler.value.level != EffectiveLevel(Sleuth.Configured(lg, handler, level)) then 1 else 0)
    ensures handler.Some? && handler.value.level <= NOTSET ==>
      |ConfigReport(lg, handler, level)| == 1 &&
      (|Sleuth.ConfigReport(lg, handler, level)| == 1 <==>
       EffectiveLevel(Sleuth.Configured(lg, handler, level)) < handler.value.level)
  {
  }

  /** A handler at NOTSET passed to a logger whose level was never set, with
      every ancestor at NOTSET, draws the older revision's diagnostic, printed
      since logging is off, and none from the newer one. */
  lemma NotsetHandlerDiagnosed()
    ensures var lg := Logger("syspath_sleuth", NOTSET, NOTSET, []);
      var r := ConfigReport(lg, Some(Handler(0, NOTSET)), -1);
      |r| == 1 && r[0].Printed? && |Sleuth.ConfigReport(lg, Some(Handler(0, NOTSET)), -1)| == 0
  {
    var lg := Logger("syspath_sleuth", NOTSET, NOTSET, []);
    var cfg := Sleuth.Configured(lg, Some(Handler(0, NOTSET)), -1);
    assert cfg.handlers == [Handler(0, NOTSET)];
  }

  /** `is_sleuth_active`: installed in either scope; there is no kill switch. */
  function SleuthActive(site: Site, moduleName: string, files: set<Path>): (r: bool)
    ensures r <==> Sleuth.ActiveInUserSite(site, moduleName, files) || Sleuth.ActiveInSystemSite(site, moduleName, files)
  {
    var inUser := Sleuth.ActiveInUserSite(site, moduleName, files);
    var inSystem := Sleuth.ActiveInSystemSite(site, moduleName, files);
    inUser || inSystem
  }

  /** Everything `is_sleuth_active` emits: the installation report, at WARNING. */
  function ActivationReport(lg: Logger, site: Site, moduleName: string, files: set<Path>): (r: seq<Emission>)
    ensures |r| <= 1
    ensures |r| == 1 <==> SleuthActive(site, moduleName, files)
    ensures |r| == 1 && Sleuth.ActiveInUserSite(site, moduleName, files) ==>
      r[0] == Inform(lg, USER_SITE_MESSAGE + ToString(UserCustomizePath(site)), WARNING)
    ensures |r| == 1 && Sleuth.ActiveInSystemSite(site, moduleName, files) ==>
      r[0] == Inform(lg, SYSTEM_SITE_MESSAGE + ToString(Sleuth.SystemCustomizePath(site).value), WARNING)
  {
    (if Sleuth.ActiveInUserSite(site, moduleName, files) then
      [Inform(lg, USER_SITE_MESSAGE + ToString(UserCustomizePath(site)), WARNING)] else []) +
    (if Sleuth.ActiveInSystemSite(site, moduleName, files) then
      [Inform(lg, SYSTEM_SITE_MESSAGE + ToString(Sleuth.SystemCustomizePath(site).value), WARNING)] else [])
  }

  /** The class attribute `logger`, and every message emitted so far. */
  class Channel {
    var logger: Logger
    var output: seq<Emission>

    constructor (inherited: int)
      ensures logger == Logger(Sleuth.LOGGER_NAME, NOTSET, inherited, []) && output == []
    {
      logger := Logger(Sleuth.LOGGER_NAME, NOTSET, inherited, []);
      output := [];
    }

    method InformUser(message: string, level: int)
      modifies this
      ensures logger == old(logger)
      ensures output == old(output) + [Inform(old(logger), message, level)]
    {
      var on := IsLoggingOn(logger);
      if on && IsEnabledFor(logger, level) {
        output := output + [Logged(level, message)];
      } else {
        output := output + [Printed(LevelName(level) + ": " + message + ")")];
      }
    }

    method ConfigLogger(handler: Option<Handler>, level: int)
      modifies this
      ensures logger == Sleuth.Configured(old(logger), handler, level)
      ensures output == old(output) + ConfigReport(old(logger), handler, level)
    {
      if level != -1 {
        logger := SetLevel(logger, level);
      }
      if handler.Some? {
        logger := AddHandler(logger, handler.value);
        if !IsEnabledFor(logger, handler.value.level) {
          InformUser(ConfigMessage(logger, handler.value), INFO);
        }
      }
    }

    method Where(m: Mutation, caller: Option<Sleuth.Frame>)
      modifies this
      ensures logger == old(logger)
      ensures output == old(output) + WhereReport(old(logger), m, caller)
    {
      var on := IsLoggingOn(logger);
      if !on || IsEnabledFor(logger, INFO) {
        if caller.None? {
          return;
        }
        var frame := caller.value;
        var message := "sys.path." + Action(m) + ArgsRepr(Args(m)) + " from " +
          ToString(frame.filename) + ":" + Decimal.IntToString(frame.lineno);
        InformUser(message, INFO);
      }
    }

    method IsActiveInUserSite(site: Site, moduleName: string, files: set<Path>) returns (active: bool)
      modifies this
      ensures active == Sleuth.ActiveInUserSite(site, moduleName, files)
      ensures logger == old(logger)
      ensures output == old(output) +
        (if active then [Inform(old(logger), USER_SITE_MESSAGE + ToString(UserCustomizePath(site)), WARNING)] else [])
    {
      if !site.enableUserSite || !site.userSiteAllowed {
        return false;
      }
      if moduleName != USER_CUSTOMIZE {
        return false;
      }
      var path := UserCustomizePath(site);
      if path !in files {
        return false;
      }
      InformUser(USER_SITE_MESSAGE + ToString(path), WARNING);
      return true;
    }

    method IsActiveInSystemSite(site: Site, moduleName: string, files: set<Path>) returns (active: bool)
      modifies this
      ensures active == Sleuth.ActiveInSystemSite(site, moduleName, files)
      ensures logger == old(logger)
      ensures output == old(output) +
        (if active then [Inform(old(logger), SYSTEM_SITE_MESSAGE + ToString(Sleuth.SystemCustomizePath(site).value), WARNING)] else [])
    {
      if moduleName != SITE_CUSTOMIZE {
        return false;
      }
      var path := Sleuth.GetSystemCustomizePath(site);
      if path.None? || path.value !in files {
        return false;
      }
      InformUser(SYSTEM_SITE_MESSAGE + ToString(path.value), WARNING);
      return true;
    }

    method IsSleuthActive(site: Site, moduleName: string, files: set<Path>) returns (active: bool)
      modifies this
      ensures active == SleuthActive(site, moduleName, files)
      ensures logger == old(logger)
      ensures output == old(output) + ActivationReport(old(logger), site, moduleName, files)
    {
      var inUser := IsActiveInUserSite(site, moduleName, files);
      var inSystem := IsActiveInSystemSite(site, moduleName, files);
      active := inUser || inSystem;
    }
  }

  /** The older `list` subclass; its mutators have the same shape as the
      newer revision's. */
  class SysPathSleuth {
    var contents: seq<string>
    const channel: Channel

    /** `SysPathSleuth(sys.path)`: a copy of the given entries. */
    constructor (channel: Channel, initial: seq<string>)
      ensures contents == initial && this.channel == channel
    {
      contents := initial;
      this.channel := channel;
    }

    method Insert(i: int, x: string, caller: Option<Sleuth.Frame>)
      modifies this, channel
      ensures channel.logger == old(channel.logger)
      ensures channel.output == old(channel.output) + WhereReport(old(channel.logger), Mutation.Insert(i, x), caller)
      ensures PyList.Apply(old(contents), Mutation.Insert(i, x)) == Success((contents, None))
    {
      channel.Where(Mutation.Insert(i, x), caller);
      contents := ListInsert(contents, i, x);
    }

    method Append(x: string, caller: Option<Sleuth.Frame>)
      modifies this, channel
      ensures channel.logger == old(channel.logger)
      ensures channel.output == old(channel.output) + WhereReport(old(channel.logger), Mutation.Append(x), caller)
      ensures PyList.Apply(old(contents), Mutation.Append(x)) == Success((contents, None))
    {
      channel.Where(Mutation.Append(x), caller);
      contents := contents + [x];
    }

    method Extend(xs: seq<string>, caller: Option<Sleuth.Frame>)
      modifies this, channel
      ensures channel.logger == old(channel.logger)
      ensures channel.output == old(channel.output) + WhereReport(old(channel.logger), Mutation.Extend(xs), caller)
      ensures PyList.Apply(old(contents), Mutation.Extend(xs)) == Success((contents, None))
    {
      channel.Where(Mutation.Extend(xs), caller);
      contents := contents + xs;
    }

    /** `pop()` with `at` None, `pop(i)` otherwise; returns the element. */
    method Pop(at: Option<int>, caller: Option<Sleuth.Frame>) returns (r: Result<string, ListError>)
      modifies this, channel
      ensures channel.logger == old(channel.logger)
      ensures channel.output == old(channel.output) + WhereReport(old(channel.logger), Mutation.Pop(at), caller)
      ensures r.Success? ==> PyList.Apply(old(contents), Mutation.Pop(at)) == Success((contents, Some(r.value)))
      ensures r.Failure? ==> PyList.Apply(old(contents), Mutation.Pop(at)) == Failure(r.error) && contents == old(contents)
    {
      channel.Where(Mutation.Pop(at), caller);
      var res := ListPop(contents, at);
      if res.Success? {
        contents := res.value.0;
        r := Success(res.value.1);
      } else {
        r := Failure(res.error);
      }
    }

    method Remove(x: string, caller: Option<Sleuth.Frame>) returns (r: Outcome<ListError>)
      modifies this, channel
      ensures channel.logger == old(channel.logger)
      ensures channel.output == old(channel.output) + WhereReport(old(channel.logger), Mutation.Remove(x), caller)
      ensures r.Pass? ==> PyList.Apply(old(contents), Mutation.Remove(x)) == Success((contents, None))
      ensures r.Fail? ==> PyList.Apply(old(contents), Mutation.Remove(x)) == Failure(r.error) && contents == old(contents)
    {
      channel.Where(Mutation.Remove(x), caller);
      var res := ListRemove(contents, x);
      if res.Success? {
        contents := res.value;
        r := Pass;
      } else {
        r := Fail(res.error);
      }
    }

    /** `del s[i]` */
    method DelItem(i: int, caller: Option<Sleuth.Frame>) returns (r: Outcome<ListError>)
      modifies this, channel
      ensures channel.logger == old(channel.logger)
      ensures channel.output == old(channel.output) + WhereReport(old(channel.logger), Mutation.DelItem(i), caller)
      ensures r.Pass? ==> PyList.Apply(old(contents), Mutation.DelItem(i)) == Success((contents, None))
      ensures r.Fail? ==> PyList.Apply(old(contents), Mutation.DelItem(i)) == Failure(r.error) && contents == old(contents)
    {
      channel.Where(Mutation.DelItem(i), caller);
      var res := ListDelItem(contents, i);
      if res.Success? {
        contents := res.value;
        r := Pass;
      } else {
        r := Fail(res.error);
      }
    }

    /** `del s[start:stop]` */
    method DelSlice(start: Option<int>, stop: Option<int>, caller: Option<Sleuth.Frame>)
      modifies this, channel
      ensures channel.logger == old(channel.logger)
      ensures channel.output == old(channel.output) + WhereReport(old(channel.logger), Mutation.DelSlice(start, stop), caller)
      ensures PyList.Apply(old(contents), Mutation.DelSlice(start, stop)) == Success((contents, None))
    {
      channel.Where(Mutation.DelSlice(start, stop), caller);
      contents := ListDelSlice(contents, start, stop);
    }

    /** `s[i] = x` */
    method SetItem(i: int, x: string, caller: Option<Sleuth.Frame>) returns (r: Outcome<ListError>)
      modifies this, channel
      ensures channel.logger == old(channel.logger)
      ensures channel.output == old(channel.output) + WhereReport(old(channel.logger), Mutation.SetItem(i, x), caller)
      ensures r.Pass? ==> PyList.Apply(old(contents), Mutation.SetItem(i, x)) == Success((contents, None))
      ensures r.Fail? ==> PyList.Apply(old(contents), Mutation.SetItem(i, x)) == Failure(r.error) && contents == old(contents)
    {
      channel.Where(Mutation.SetItem(i, x), caller);
      var res := ListSetItem(contents, i, x);
      if res.Success? {
        contents := res.value;
        r := Pass;
      } else {
        r := Fail(res.error);
      }
    }

    /** `s[start:stop] = xs` */
    method SetSlice(start: Option<int>, stop: Option<int>, xs: seq<string>, caller: Option<Sleuth.Frame>)
      modifies this, channel
      ensures channel.logger == old(channel.logger)
      ensures channel.output == old(channel.output) + WhereReport(old(channel.logger), Mutation.SetSlice(start, stop, xs), caller)
      ensures PyList.Apply(old(contents), Mutation.SetSlice(start, stop, xs)) == Success((contents, None))
    {
      channel.Where(Mutation.SetSlice(start, stop, xs), caller);
      contents := ListSetSlice(contents, start, stop, xs);
    }
  }
}

/** `SysPathSleuth` of the `runtime_syspath.syspath_sleuth` package: a
    `sys.path` replacement that reports every mutating call (to its logger or
    by printing) before performing it as a plain list would.

    The class-level logger and what has been emitted so far live in a
    `Channel` shared by all instances; the list contents live in each
    `SysPathSleuth`. The caller's frame, which the source obtains by stack
    introspection, is a parameter (None when it cannot be resolved). */
module Sleuth {
  import opened Wrappers
  import opened PyPath
  import opened Host
  import opened PyRepr
  import opened PyList
  import opened PyLogging
  import Decimal

  const LOGGER_NAME := "runtime-syspath.SysPathSleuth"

  const KILL_MESSAGE :=
    "SysPathSleuth is installed in site customize, but disabled due to $SYSPATH_SLEUTH_KILL env var: True"
  const USER_SITE_MESSAGE := "SysPathSleuth is installed in user site: "
  const SYSTEM_SITE_MESSAGE := "SysPathSleuth is installed in system site: "

  /** What `inspect.getframeinfo` reports about the caller of a mutator. */
  datatype Frame = Frame(filename: Path, lineno: int)

  /** One call of a mutator, and the frame it was made from. */
  datatype Call = Call(m: Mutation, caller: Option<Frame>)

  // ---------------------------------------------------------------------
  // Path shortening (`relative_path`)
  // ---------------------------------------------------------------------

  /** The walk up from `cwd`: the path relative to the nearest ancestor of
      `cwd` (itself included) that leads it, or `p` itself once "/" has
      been tried as well. */
  function StripNearestAncestor(p: Path, cwd: seq<string>): Path
    decreases |cwd|
  {
    match RelativeTo(p, Absolute(cwd))
    case Some(r) => r
    case None => if |cwd| == 0 then p else StripNearestAncestor(p, cwd[..|cwd| - 1])
  }

  /** `relative_path`: `p` relative to `sys.base_prefix` when it lies under
      it, otherwise relative to the nearest ancestor of the working directory. */
  function ShortPath(p: Path, env: Env): (r: Path)
    ensures p.absolute ==> !r.absolute && |r.parts| <= |p.parts| && r.parts == p.parts[|p.parts| - |r.parts|..]
    ensures !p.absolute ==> r == p
  {
    StripNearestAncestorClosedForm(p, env.cwd);
    match RelativeTo(p, Absolute(env.basePrefix))
    case Some(r) => r
    case None => StripNearestAncestor(p, env.cwd)
  }

  /** The number of leading components `a` and `b` share. */
  function CommonPrefixLength(a: seq<string>, b: seq<string>): (n: nat)
    ensures n <= |a| && n <= |b| && a[..n] == b[..n]
    ensures n < |a| && n < |b| ==> a[n] != b[n]
  {
    if |a| == 0 || |b| == 0 || a[0] != b[0] then 0
    else
      var n := CommonPrefixLength(a[1..], b[1..]);
      assert a[..n + 1] == [a[0]] + a[1..][..n];
      assert b[..n + 1] == [b[0]] + b[1..][..n];
      n + 1
  }

  lemma {:induction false} CommonPrefixOfPrefix(a: seq<string>, b: seq<string>)
    requires IsPrefix(a, b)
    ensures CommonPrefixLength(a, b) == |a|
    decreases |a|
  {
    if |a| > 0 {
      assert IsPrefix(a[1..], b[1..]) by {
        assert b[1..][..|a| - 1] == b[..|a|][1..];
      }
      CommonPrefixOfPrefix(a[1..], b[1..]);
    }
  }

  lemma PrefixTail(a: seq<string>, b: seq<string>)
    requires |a| > 0 && |b| > 0 && a[0] == b[0]
    ensures IsPrefix(a, b) <==> IsPrefix(a[1..], b[1..])
  {
    if |a| <= |b| {
      assert b[..|a|] == [b[0]] + b[1..][..|a| - 1];
      assert a == [a[0]] + a[1..];
    }
  }

  lemma {:induction false} CommonPrefixDropLast(a: seq<string>, b: seq<string>)
    requires |a| > 0 && !IsPrefix(a, b)
    ensures CommonPrefixLength(a[..|a| - 1], b) == CommonPrefixLength(a, b)
    decreases |a|
  {
    var front := a[..|a| - 1];
    if |b| > 0 && a[0] == b[0] && |a| > 1 {
      assert front[0] == a[0];
      assert front[1..] == a[1..][..|a| - 2];
      PrefixTail(a, b);
      CommonPrefixDropLast(a[1..], b[1..]);
    }
  }

  /** The walk strips exactly the components an absolute path shares with
      the working directory, and leaves a relative path alone. */
  lemma {:induction false} StripNearestAncestorClosedForm(p: Path, cwd: seq<string>)
    ensures p.absolute ==>
      StripNearestAncestor(p, cwd) == Path(false, p.parts[CommonPrefixLength(cwd, p.parts)..])
    ensures !p.absolute ==> StripNearestAncestor(p, cwd) == p
    decreases |cwd|
  {
    if p.absolute && IsPrefix(cwd, p.parts) {
      CommonPrefixOfPrefix(cwd, p.parts);
    } else if |cwd| > 0 {
      StripNearestAncestorClosedForm(p, cwd[..|cwd| - 1]);
      if p.absolute {
        CommonPrefixDropLast(cwd, p.parts);
      }
    }
  }

  /** `relative_path`, with its root guard. */
  method RelativePath(p: Path, env: Env) returns (r: Path)
    ensures r == ShortPath(p, env)
  {
    var underBase := RelativeTo(p, Absolute(env.basePrefix));
    if underBase.Some? {
      return underBase.value;
    }
    r := p;
    var orig := p;
    var cwd := env.cwd;
    while r == orig
      invariant r == orig && orig == p
      invariant StripNearestAncestor(p, cwd) == StripNearestAncestor(p, env.cwd)
      decreases |cwd|
    {
      var rel := RelativeTo(p, Absolute(cwd));
      if rel.Some? {
        r := rel.value;
        break;
      }
      if |cwd| == 0 {
        break;
      }
      cwd := cwd[..|cwd| - 1];
    }
  }

  /** The shortened path never keeps more than the original's components. */
  lemma ShortPathShape(p: Path, env: Env)
    ensures IsPrefix(env.basePrefix, p.parts) && p.absolute ==>
      ShortPath(p, env) == Path(false, p.parts[|env.basePrefix|..])
    ensures !(IsPrefix(env.basePrefix, p.parts) && p.absolute) && p.absolute ==>
      ShortPath(p, env) == Path(false, p.parts[CommonPrefixLength(env.cwd, p.parts)..])
    ensures !p.absolute ==> ShortPath(p, env) == p
  {
    StripNearestAncestorClosedForm(p, env.cwd);
  }

  // ---------------------------------------------------------------------
  // The walk inside `_where`, as written: no root guard
  // ---------------------------------------------------------------------

  /** `Path.parent`: the root is its own parent. */
  function Parent(cwd: seq<string>): seq<string> {
    if |cwd| == 0 then [] else cwd[..|cwd| - 1]
  }

  /** The cwd walk of `_where` run for at most `fuel` rounds; None when it
      has not left the loop by then. */
  function WhereWalkAsWritten(p: Path, cwd: seq<string>, fuel: nat): Option<Path>
    decreases fuel
  {
    if fuel == 0 then None
    else
      match RelativeTo(p, Absolute(cwd))
      case Some(r) => Some(r)
      case None => WhereWalkAsWritten(p, Parent(cwd), fuel - 1)
  }

  /** A relative frame filename (such as "<stdin>" or "<string>") is never
      relative to an absolute directory, so the walk never leaves the loop. */
  lemma {:induction false} WhereWalkNeverEndsOnRelative(p: Path, cwd: seq<string>, fuel: nat)
    requires !p.absolute
    ensures WhereWalkAsWritten(p, cwd, fuel) == None
    decreases fuel
  {
    if fuel > 0 {
      WhereWalkNeverEndsOnRelative(p, Parent(cwd), fuel - 1);
    }
  }

  /** For an absolute filename the walk ends within `|cwd| + 1` rounds and
      agrees with the guarded walk of `relative_path`. */
  lemma {:induction false} WhereWalkEndsOnAbsolute(p: Path, cwd: seq<string>, fuel: nat)
    requires p.absolute && fuel > |cwd|
    ensures WhereWalkAsWritten(p, cwd, fuel) == Some(StripNearestAncestor(p, cwd))
    decreases fuel
  {
    if RelativeTo(p, Absolute(cwd)).None? {
      assert |cwd| > 0;
      WhereWalkEndsOnAbsolute(p, Parent(cwd), fuel - 1);
    }
  }

  // ---------------------------------------------------------------------
  // Reporting (`_inform_user`, `_where`, `config_logger`)
  // ---------------------------------------------------------------------

  /** `_inform_user`: the message goes to the logger when logging is on and
      the level is enabled, and is printed otherwise; it is never dropped. */
  function Inform(lg: Logger, message: string, level: int): (e: Emission)
    ensures e.message == message
    ensures e.Logged? <==> LoggingOn(lg) && IsEnabledFor(lg, level)
    ensures e.Logged? ==> e.level == level
  {
    if LoggingOn(lg) && IsEnabledFor(lg, level) then Logged(level, message) else Printed(message)
  }

  /** `_where` looks at the caller only when printing, or when INFO is enabled. */
  predicate InspectsFrame(lg: Logger) {
    !LoggingOn(lg) || IsEnabledFor(lg, INFO)
  }

  function WhereMessage(m: Mutation, frame: Frame, env: Env): string {
    "sys.path." + Action(m) + ArgsRepr(Args(m)) + " from " +
    ToString(ShortPath(frame.filename, env)) + ":" + Decimal.IntToString(frame.lineno)
  }

  /** What `_where` emits for one call: exactly one message when the frame
      resolves and logging is off or INFO is enabled, none otherwise. The
      message is logged exactly when logging is on, so with logging on
      nothing is ever printed. */
  function WhereReport(lg: Logger, m: Mutation, caller: Option<Frame>, env: Env): (r: seq<Emission>)
    ensures |r| == (if caller.Some? && InspectsFrame(lg) then 1 else 0)
    ensures |r| == 1 ==>
      r[0].message == WhereMessage(m, caller.value, env) &&
      (r[0].Logged? <==> LoggingOn(lg)) && (r[0].Logged? ==> r[0].level == INFO)
  {
    if InspectsFrame(lg) && caller.Some? then [Inform(lg, WhereMessage(m, caller.value, env), INFO)] else []
  }

  /** `config_logger`'s effect on the logger. */
  function Configured(lg: Logger, handler: Option<Handler>, level: int): (r: Logger)
    ensures level == -1 ==> r.level == lg.level
    ensures level != -1 ==> r.level == level
    ensures handler.Some? ==> handler.value in r.handlers
    ensures handler.None? ==> r.handlers == lg.handlers
    ensures |lg.handlers| <= |r.handlers| <= |lg.handlers| + 1 && r.handlers[..|lg.handlers|] == lg.handlers
    ensures forall g :: g in r.handlers ==> g in lg.handlers || Some(g) == handler
    ensures r.name == lg.name && r.inherited == lg.inherited
  {
    var leveled := if level != -1 then SetLevel(lg, level) else lg;
    if handler.Some? then AddHandler(leveled, handler.value) else leveled
  }

  function ConfigMessage(lg: Logger, h: Handler): string {
    "Handler's level (" + LevelName(h.level) + ") is insufficient to log at " +
    lg.name + "'s level (" + LevelName(EffectiveLevel(lg)) + ") yet."
  }

  /** The self-diagnostic of `config_logger`, judged on the configured logger. */
  function ConfigReport(lg: Logger, handler: Option<Handler>, level: int): (r: seq<Emission>)
    ensures |r| <= 1
    ensures |r| == 1 <==> handler.Some? && EffectiveLevel(Configured(lg, handler, level)) < handler.value.level
    ensures |r| == 1 ==> r[0].message == ConfigMessage(Configured(lg, handler, level), handler.value)
    ensures |r| == 1 ==>
      (r[0].Logged? <==> LoggingOn(Configured(lg, handler, level)) && IsEnabledFor(Configured(lg, handler, level), INFO))
  {
    var cfg := Configured(lg, handler, level);
    if handler.Some? && EffectiveLevel(cfg) < handler.value.level then
      [Inform(cfg, ConfigMessage(cfg, handler.value), INFO)]
    else []
  }

  /** Setting a level and a handler that both are not NOTSET turns logging on. */
  lemma ConfiguredLoggingOn(lg: Logger, h: Handler, level: int)
    requires level != -1 && level != NOTSET && h.level != NOTSET
    ensures LoggingOn(Configured(lg, Some(h), level))
    ensures EffectiveLevel(Configured(lg, Some(h), level)) == level
  {
    var cfg := Configured(lg, Some(h), level);
    var k :| 0 <= k < |cfg.handlers| && cfg.handlers[k] == h;
    assert cfg.handlers[k].level != NOTSET;
  }

  /** A logger nobody configured prints every report. */
  lemma UnconfiguredPrints(inherited: int, m: Mutation, frame: Frame, env: Env)
    ensures WhereReport(Logger(LOGGER_NAME, NOTSET, inherited, []), m, Some(frame), env) ==
      [Printed(WhereMessage(m, frame, env))]
  {
  }

  /** What a series of calls on the traced list produces: the outcome of the
      plain list operations (stopping at the first error) and the messages,
      one report per call in call order; a failing call is still reported. */
  function Trace(lg: Logger, s: seq<string>, calls: seq<Call>, env: Env): (r: (Result<seq<string>, ListError>, seq<Emission>))
    ensures |r.1| <= |calls|
    decreases |calls|
  {
    if |calls| == 0 then (Success(s), [])
    else
      var report := WhereReport(lg, calls[0].m, calls[0].caller, env);
      match Apply(s, calls[0].m)
      case Failure(e) => (Failure(e), report)
      case Success((t, _)) =>
        var rest := Trace(lg, t, calls[1..], env);
        (rest.0, report + rest.1)
  }

  function Mutations(calls: seq<Call>): (ms: seq<Mutation>)
    ensures |ms| == |calls| && forall k :: 0 <= k < |calls| ==> ms[k] == calls[k].m
  {
    seq(|calls|, k requires 0 <= k < |calls| => calls[k].m)
  }

  predicate AllResolved(calls: seq<Call>) {
    forall k :: 0 <= k < |calls| ==> calls[k].caller.Some?
  }

  /** Tracing never changes what the list does: the contents and errors are
      those of the plain list operations. */
  lemma {:induction false} TraceIsPlainList(lg: Logger, s: seq<string>, calls: seq<Call>, env: Env)
    ensures Trace(lg, s, calls, env).0 == ApplyAll(s, Mutations(calls))
    decreases |calls|
  {
    if |calls| > 0 {
      assert Mutations(calls)[1..] == Mutations(calls[1..]);
      match Apply(s, calls[0].m)
      case Failure(_) =>
      case Success((t, _)) => TraceIsPlainList(lg, t, calls[1..], env);
    }
  }

  /** The text of each emission, in order. */
  function Messages(es: seq<Emission>): (ms: seq<string>)
    ensures |ms| == |es| && forall k :: 0 <= k < |es| ==> ms[k] == es[k].message
  {
    seq(|es|, k requires 0 <= k < |es| => es[k].message)
  }

  /** The message `_where` builds for each call, in order. */
  function WhereMessages(calls: seq<Call>, env: Env): (ms: seq<string>)
    requires AllResolved(calls)
    ensures |ms| == |calls|
    decreases |calls|
  {
    if |calls| == 0 then []
    else
      assert AllResolved(calls[1..]) by {
        forall k | 0 <= k < |calls| - 1 ensures calls[1..][k].caller.Some? {
          assert calls[1..][k] == calls[k + 1];
        }
      }
      [WhereMessage(calls[0].m, calls[0].caller.value, env)] + WhereMessages(calls[1..], env)
  }

  /** The k-th of those messages describes the k-th call. */
  lemma {:induction false} WhereMessagesAt(calls: seq<Call>, env: Env, k: nat)
    requires AllResolved(calls) && k < |calls|
    ensures WhereMessages(calls, env)[k] == WhereMessage(calls[k].m, calls[k].caller.value, env)
    decreases k
  {
    if k > 0 {
      assert AllResolved(calls[1..]) by {
        forall j | 0 <= j < |calls| - 1 ensures calls[1..][j].caller.Some? {
          assert calls[1..][j] == calls[j + 1];
        }
      }
      WhereMessagesAt(calls[1..], env, k - 1);
      assert calls[1..][k - 1] == calls[k];
    }
  }

  /** When every frame resolves and the sleuth looks at frames, a run that
      succeeds emits one message per call, the k-th describing the k-th
      call (see `WhereMessagesAt`). */
  lemma {:induction false} TraceReportsEachCall(lg: Logger, s: seq<string>, calls: seq<Call>, env: Env)
    requires InspectsFrame(lg) && AllResolved(calls) && Trace(lg, s, calls, env).0.Success?
    ensures Messages(Trace(lg, s, calls, env).1) == WhereMessages(calls, env)
    decreases |calls|
  {
    if |calls| > 0 {
      var step := Apply(s, calls[0].m);
      assert step.Success?;
      var t := step.value.0;
      var tail := calls[1..];
      assert AllResolved(tail) by {
        forall k | 0 <= k < |tail| ensures tail[k].caller.Some? {
          assert tail[k] == calls[k + 1];
        }
      }
      var rest := Trace(lg, t, tail, env);
      TraceReportsEachCall(lg, t, tail, env);
      var report := WhereReport(lg, calls[0].m, calls[0].caller, env);
      assert |report| == 1 && report[0].message == WhereMessage(calls[0].m, calls[0].caller.value, env);
      assert Trace(lg, s, calls, env).1 == report + rest.1;
      MessagesPrepend(report[0], rest.1);
    }
  }

  lemma MessagesPrepend(first: Emission, later: seq<Emission>)
    ensures Messages([first] + later) == [first.message] + Messages(later)
  {
    assert forall k :: 0 <= k < |later| ==> ([first] + later)[k + 1] == later[k];
  }

  /** When logging is on but INFO is disabled, nothing is ever emitted. */
  lemma {:induction false} TraceSilentBelowInfo(lg: Logger, s: seq<string>, calls: seq<Call>, env: Env)
    requires !InspectsFrame(lg)
    ensures Trace(lg, s, calls, env).1 == []
    decreases |calls|
  {
    if |calls| > 0 {
      match Apply(s, calls[0].m)
      case Failure(_) =>
      case Success((t, _)) => TraceSilentBelowInfo(lg, t, calls[1..], env);
    }
  }

  // ---------------------------------------------------------------------
  // Activation (`is_sleuth_active` and its helpers)
  // ---------------------------------------------------------------------

  predicate IsSleuthSitePackages(site: Site, d: Path) {
    Name(d) == SITE_PACKAGES && d in site.dirs
  }

  /** The first site-packages directory from `from` on that is named
      "site-packages" and is a directory. */
  function FirstSitePackages(site: Site, from: nat): (r: Option<nat>)
    requires from <= |site.sitePackages|
    ensures r.Some? ==> (from <= r.value < |site.sitePackages| &&
      IsSleuthSitePackages(site, site.sitePackages[r.value]) &&
      forall j :: from <= j < r.value ==> !IsSleuthSitePackages(site, site.sitePackages[j]))
    ensures r.None? ==> forall j :: from <= j < |site.sitePackages| ==> !IsSleuthSitePackages(site, site.sitePackages[j])
    decreases |site.sitePackages| - from
  {
    if from == |site.sitePackages| then None
    else if IsSleuthSitePackages(site, site.sitePackages[from]) then Some(from)
    else FirstSitePackages(site, from + 1)
  }

  /** `_get_system_customize_path`: "sitecustomize.py" in the first
      site-packages directory that qualifies, if any does. */
  function SystemCustomizePath(site: Site): (r: Option<Path>)
    ensures r.Some? ==> Name(r.value) == SITE_CUSTOMIZE
    ensures r.None? <==> forall j :: 0 <= j < |site.sitePackages| ==> !IsSleuthSitePackages(site, site.sitePackages[j])
    ensures r.Some? ==> (exists k :: 0 <= k < |site.sitePackages| && IsSleuthSitePackages(site, site.sitePackages[k]) &&
                          (forall j :: 0 <= j < k ==> !IsSleuthSitePackages(site, site.sitePackages[j])) &&
                          r.value == Join(site.sitePackages[k], SITE_CUSTOMIZE))
  {
    match FirstSitePackages(site, 0)
    case Some(k) => Some(Join(site.sitePackages[k], SITE_CUSTOMIZE))
    case None => None
  }

  method GetSystemCustomizePath(site: Site) returns (r: Option<Path>)
    ensures r == SystemCustomizePath(site)
  {
    var i := 0;
    while i < |site.sitePackages|
      invariant 0 <= i <= |site.sitePackages|
      invariant FirstSitePackages(site, i) == FirstSitePackages(site, 0)
    {
      var d := site.sitePackages[i];
      if Name(d) == SITE_PACKAGES && d in site.dirs {
        return Some(Join(d, SITE_CUSTOMIZE));
      }
      i := i + 1;
    }
    return None;
  }

  /** `_is_active_in_user_site`; `moduleName` is the sleuth module's own
      file name and `files` the paths that exist. */
  predicate ActiveInUserSite(site: Site, moduleName: string, files: set<Path>)
    ensures ActiveInUserSite(site, moduleName, files) ==>
      UserSiteEnabled(site) && Join(site.userSitePackages, moduleName) in files
  {
    UserSiteEnabled(site) && moduleName == USER_CUSTOMIZE && UserCustomizePath(site) in files
  }

  /** `_is_active_in_system_site` */
  predicate ActiveInSystemSite(site: Site, moduleName: string, files: set<Path>)
    ensures ActiveInSystemSite(site, moduleName, files) ==>
      exists k :: 0 <= k < |site.sitePackages| && IsSleuthSitePackages(site, site.sitePackages[k]) &&
                  Join(site.sitePackages[k], moduleName) in files
  {
    moduleName == SITE_CUSTOMIZE && SystemCustomizePath(site).Some? && SystemCustomizePath(site).value in files
  }

  lemma AppendAssociative<T>(a: seq<T>, b: seq<T>, c: seq<T>, d: seq<T>)
    ensures a + b + c + d == a + (b + c + d)
  {
  }

  /** `is_sleuth_active`: installed in one scope and not killed. */
  function SleuthActive(site: Site, moduleName: string, files: set<Path>, environ: Environ): (r: bool)
    ensures r <==> (KILL_VAR !in environ &&
      (ActiveInUserSite(site, moduleName, files) || ActiveInSystemSite(site, moduleName, files)))
    ensures !(ActiveInUserSite(site, moduleName, files) && ActiveInSystemSite(site, moduleName, files))
  {
    var installed := ActiveInUserSite(site, moduleName, files) || ActiveInSystemSite(site, moduleName, files);
    var kill := installed && KILL_VAR in environ;
    !kill && installed
  }

  function UserSiteReport(lg: Logger, site: Site, moduleName: string, files: set<Path>, env: Env): seq<Emission> {
    if ActiveInUserSite(site, moduleName, files) then
      [Inform(lg, USER_SITE_MESSAGE + ToString(ShortPath(UserCustomizePath(site), env)), INFO)]
    else []
  }

  function SystemSiteReport(lg: Logger, site: Site, moduleName: string, files: set<Path>, env: Env): seq<Emission> {
    if ActiveInSystemSite(site, moduleName, files) then
      [Inform(lg, SYSTEM_SITE_MESSAGE + ToString(ShortPath(SystemCustomizePath(site).value, env)), INFO)]
    else []
  }

  /** Everything `is_sleuth_active` emits, in order. */
  function ActivationReport(lg: Logger, site: Site, moduleName: string, files: set<Path>, environ: Environ, env: Env): (r: seq<Emission>)
    ensures var installed := ActiveInUserSite(site, moduleName, files) || ActiveInSystemSite(site, moduleName, files);
      |r| <= 2 && (|r| > 0 <==> installed) && (|r| == 2 <==> installed && KILL_VAR in environ)
  {
    var installed := ActiveInUserSite(site, moduleName, files) || ActiveInSystemSite(site, moduleName, files);
    UserSiteReport(lg, site, moduleName, files, env) +
    SystemSiteReport(lg, site, moduleName, files, env) +
    (if installed && KILL_VAR in environ then [Inform(lg, KILL_MESSAGE, INFO)] else [])
  }

  /** One installation report when installed in a scope, followed by the
      kill message exactly when the kill switch is set; nothing otherwise. */
  lemma ActivationReportShape(lg: Logger, site: Site, moduleName: string, files: set<Path>, environ: Environ, env: Env)
    ensures var r := ActivationReport(lg, site, moduleName, files, environ, env);
      var installed := ActiveInUserSite(site, moduleName, files) || ActiveInSystemSite(site, moduleName, files);
      (|r| > 0 <==> installed) && (|r| == 2 <==> installed && KILL_VAR in environ) && |r| <= 2 &&
      (|r| == 2 ==> r[1].message == KILL_MESSAGE) &&
      (|r| > 0 ==> (IsPrefix(USER_SITE_MESSAGE, r[0].message) <==> ActiveInUserSite(site, moduleName, files)))
  {
    var user := ActiveInUserSite(site, moduleName, files);
    var system := ActiveInSystemSite(site, moduleName, files);
    assert !(user && system) by {
      assert USER_CUSTOMIZE[0] != SITE_CUSTOMIZE[0];
    }
    var userReport := UserSiteReport(lg, site, moduleName, files, env);
    var systemReport := SystemSiteReport(lg, site, moduleName, files, env);
    if user {
      UserMessagePrefix(ToString(ShortPath(UserCustomizePath(site), env)));
      assert userReport[0].message == USER_SITE_MESSAGE + ToString(ShortPath(UserCustomizePath(site), env));
    } else if system {
      SystemMessageNotUser(ToString(ShortPath(SystemCustomizePath(site).value, env)));
      assert systemReport[0].message == SYSTEM_SITE_MESSAGE + ToString(ShortPath(SystemCustomizePath(site).value, env));
    }
  }

  lemma UserMessagePrefix(x: string)
    ensures IsPrefix(USER_SITE_MESSAGE, USER_SITE_MESSAGE + x)
  {
    assert (USER_SITE_MESSAGE + x)[..|USER_SITE_MESSAGE|] == USER_SITE_MESSAGE;
  }

  lemma SystemMessageNotUser(y: string)
    ensures !IsPrefix(USER_SITE_MESSAGE, SYSTEM_SITE_MESSAGE + y)
  {
    assert (SYSTEM_SITE_MESSAGE + y)[30] == 's' != USER_SITE_MESSAGE[30];
  }

  // ---------------------------------------------------------------------
  // The class-level logger and the output
  // ---------------------------------------------------------------------

  /** The class attribute `logger`, and every message emitted so far. */
  class Channel {
    var logger: Logger
    var output: seq<Emission>

    /** The logger as the class body leaves it: level NOTSET, no handlers. */
    constructor (inherited: int)
      ensures logger == Logger(LOGGER_NAME, NOTSET, inherited, []) && output == []
    {
      logger := Logger(LOGGER_NAME, NOTSET, inherited, []);
      output := [];
    }

    method InformUser(message: string, level: int)
      modifies this
      ensures logger == old(logger)
      ensures output == old(output) + [Inform(old(logger), message, level)]
    {
      var on := IsLoggingOn(logger);
      if on && IsEnabledFor(logger, level) {
        output := output + [Logged(level, message)];
      } else {
        output := output + [Printed(message)];
      }
    }

    method ConfigLogger(handler: Option<Handler>, level: int)
      modifies this
      ensures logger == Configured(old(logger), handler, level)
      ensures output == old(output) + ConfigReport(old(logger), handler, level)
    {
      if level != -1 {
        logger := SetLevel(logger, level);
      }
      if handler.Some? {
        logger := AddHandler(logger, handler.value);
        if EffectiveLevel(logger) < handler.value.level {
          InformUser(ConfigMessage(logger, handler.value), INFO);
        }
      }
    }

    method Where(m: Mutation, caller: Option<Frame>, env: Env)
      modifies this
      ensures logger == old(logger)
      ensures output == old(output) + WhereReport(old(logger), m, caller, env)
    {
      var on := IsLoggingOn(logger);
      if !on || IsEnabledFor(logger, INFO) {
        if caller.None? {
          return;
        }
        var frame := caller.value;
        var filename := RelativePath(frame.filename, env);
        var message := "sys.path." + Action(m) + ArgsRepr(Args(m)) + " from " +
          ToString(filename) + ":" + Decimal.IntToString(frame.lineno);
        InformUser(message, INFO);
      }
    }

    method IsActiveInUserSite(site: Site, moduleName: string, files: set<Path>, env: Env) returns (active: bool)
      modifies this
      ensures active == ActiveInUserSite(site, moduleName, files)
      ensures logger == old(logger)
      ensures output == old(output) + UserSiteReport(old(logger), site, moduleName, files, env)
    {
      if !site.enableUserSite || !site.userSiteAllowed {
        return false;
      }
      if moduleName != USER_CUSTOMIZE {
        return false;
      }
      var path := UserCustomizePath(site);
      if path !in files {
        return false;
      }
      path := RelativePath(path, env);
      InformUser(USER_SITE_MESSAGE + ToString(path), INFO);
      return true;
    }

    method IsActiveInSystemSite(site: Site, moduleName: string, files: set<Path>, env: Env) returns (active: bool)
      modifies this
      ensures active == ActiveInSystemSite(site, moduleName, files)
      ensures logger == old(logger)
      ensures output == old(output) + SystemSiteReport(old(logger), site, moduleName, files, env)
    {
      if moduleName != SITE_CUSTOMIZE {
        return false;
      }
      var path := GetSystemCustomizePath(site);
      if path.None? || path.value !in files {
        return false;
      }
      var shown := RelativePath(path.value, env);
      InformUser(SYSTEM_SITE_MESSAGE + ToString(shown), INFO);
      return true;
    }

    method IsSleuthActive(site: Site, moduleName: string, files: set<Path>, environ: Environ, env: Env) returns (active: bool)
      modifies this
      ensures active == SleuthActive(site, moduleName, files, environ)
      ensures logger == old(logger)
      ensures output == old(output) + ActivationReport(old(logger), site, moduleName, files, environ, env)
    {
      ghost var before := output;
      var inUser := IsActiveInUserSite(site, moduleName, files, env);
      var inSystem := IsActiveInSystemSite(site, moduleName, files, env);
      ghost var user := UserSiteReport(logger, site, moduleName, files, env);
      ghost var system := SystemSiteReport(logger, site, moduleName, files, env);
      var kill := false;
      if inUser || inSystem {
        kill := KILL_VAR in environ;
        if kill {
          InformUser(KILL_MESSAGE, INFO);
        }
      }
      ghost var killed: seq<Emission> := if kill then [Inform(logger, KILL_MESSAGE, INFO)] else [];
      assert output == before + user + system + killed;
      AppendAssociative(before, user, system, killed);
      active := !kill && (inUser || inSystem);
    }
  }

  // ---------------------------------------------------------------------
  // The traced list
  // ---------------------------------------------------------------------

  /** The `list` subclass that replaces `sys.path`. Each mutator reports
      through `_where` first and then does what the plain list does. */
  class SysPathSleuth {
    var contents: seq<string>
    const channel: Channel

    /** `SysPathSleuth(sys.path)`: a copy of the given entries. */
    constructor (channel: Channel, initial: seq<string>)
      ensures contents == initial && this.channel == channel
    {
      contents := initial;
      this.channel := channel;
    }

    method Insert(i: int, x: string, caller: Option<Frame>, env: Env)
      modifies this, channel
      ensures channel.logger == old(channel.logger)
      ensures channel.output == old(channel.output) + WhereReport(old(channel.logger), Mutation.Insert(i, x), caller, env)
      ensures PyList.Apply(old(contents), Mutation.Insert(i, x)) == Success((contents, None))
    {
      channel.Where(Mutation.Insert(i, x), caller, env);
      contents := ListInsert(contents, i, x);
    }

    method Append(x: string, caller: Option<Frame>, env: Env)
      modifies this, channel
      ensures channel.logger == old(channel.logger)
      ensures channel.output == old(channel.output) + WhereReport(old(channel.logger), Mutation.Append(x), caller, env)
      ensures PyList.Apply(old(contents), Mutation.Append(x)) == Success((contents, None))
    {
      channel.Where(Mutation.Append(x), caller, env);
      contents := contents + [x];
    }

    method Extend(xs: seq<string>, caller: Option<Frame>, env: Env)
      modifies this, channel
      ensures channel.logger == old(channel.logger)
      ensures channel.output == old(channel.output) + WhereReport(old(channel.logger), Mutation.Extend(xs), caller, env)
      ensures PyList.Apply(old(contents), Mutation.Extend(xs)) == Success((contents, None))
    {
      channel.Where(Mutation.Extend(xs), caller, env);
      contents := contents + xs;
    }

    /** `pop()` with `at` None, `pop(i)` otherwise; returns the element. */
    method Pop(at: Option<int>, caller: Option<Frame>, env: Env) returns (r: Result<string, ListError>)
      modifies this, channel
      ensures channel.logger == old(channel.logger)
      ensures channel.output == old(channel.output) + WhereReport(old(channel.logger), Mutation.Pop(at), caller, env)
      ensures r.Success? ==> PyList.Apply(old(contents), Mutation.Pop(at)) == Success((contents, Some(r.value)))
      ensures r.Failure? ==> PyList.Apply(old(contents), Mutation.Pop(at)) == Failure(r.error) && contents == old(contents)
    {
      channel.Where(Mutation.Pop(at), caller, env);
      var res := ListPop(contents, at);
      if res.Success? {
        contents := res.value.0;
        r := Success(res.value.1);
      } else {
        r := Failure(res.error);
      }
    }

    method Remove(x: string, caller: Option<Frame>, env: Env) returns (r: Outcome<ListError>)
      modifies this, channel
      ensures channel.logger == old(channel.logger)
      ensures channel.output == old(channel.output) + WhereReport(old(channel.logger), Mutation.Remove(x), caller, env)
      ensures r.Pass? ==> PyList.Apply(old(contents), Mutation.Remove(x)) == Success((contents, None))
      ensures r.Fail? ==> PyList.Apply(old(contents), Mutation.Remove(x)) == Failure(r.error) && contents == old(contents)
    {
      channel.Where(Mutation.Remove(x), caller, env);
      var res := ListRemove(contents, x);
      if res.Success? {
        contents := res.value;
        r := Pass;
      } else {
        r := Fail(res.error);
      }
    }

    /** `del s[i]` */
    method DelItem(i: int, caller: Option<Frame>, env: Env) returns (r: Outcome<ListError>)
      modifies this, channel
      ensures channel.logger == old(channel.logger)
      ensures channel.output == old(channel.output) + WhereReport(old(channel.logger), Mutation.DelItem(i), caller, env)
      ensures r.Pass? ==> PyList.Apply(old(contents), Mutation.DelItem(i)) == Success((contents, None))
      ensures r.Fail? ==> PyList.Apply(old(contents), Mutation.DelItem(i)) == Failure(r.error) && contents == old(contents)
    {
      channel.Where(Mutation.DelItem(i), caller, env);
      var res := ListDelItem(contents, i);
      if res.Success? {
        contents := res.value;
        r := Pass;
      } else {
        r := Fail(res.error);
      }
    }

    /** `del s[start:stop]` */
    method DelSlice(start: Option<int>, stop: Option<int>, caller: Option<Frame>, env: Env)
      modifies this, channel
      ensures channel.logger == old(channel.logger)
      ensures channel.output == old(channel.output) + WhereReport(old(channel.logger), Mutation.DelSlice(start, stop), caller, env)
      ensures PyList.Apply(old(contents), Mutation.DelSlice(start, stop)) == Success((contents, None))
    {
      channel.Where(Mutation.DelSlice(start, stop), caller, env);
      contents := ListDelSlice(contents, start, stop);
    }

    /** `s[i] = x` */
    method SetItem(i: int, x: string, caller: Option<Frame>, env: Env) returns (r: Outcome<ListError>)
      modifies this, channel
      ensures channel.logger == old(channel.logger)
      ensures channel.output == old(channel.output) + WhereReport(old(channel.logger), Mutation.SetItem(i, x), caller, env)
      ensures r.Pass? ==> PyList.Apply(old(contents), Mutation.SetItem(i, x)) == Success((contents, None))
      ensures r.Fail? ==> PyList.Apply(old(contents), Mutation.SetItem(i, x)) == Failure(r.error) && contents == old(contents)
    {
      channel.Where(Mutation.SetItem(i, x), caller, env);
      var res := ListSetItem(contents, i, x);
      if res.Success? {
        contents := res.value;
        r := Pass;
      } else {
        r := Fail(res.error);
      }
    }

    /** `s[start:stop] = xs` */
    method SetSlice(start: Option<int>, stop: Option<int>, xs: seq<string>, caller: Option<Frame>, env: Env)
      modifies this, channel
      ensures channel.logger == old(channel.logger)
      ensures channel.output == old(channel.output) + WhereReport(old(channel.logger), Mutation.SetSlice(start, stop, xs), caller, env)
      ensures PyList.Apply(old(contents), Mutation.SetSlice(start, stop, xs)) == Success((contents, None))
    {
      channel.Where(Mutation.SetSlice(start, stop, xs), caller, env);
      contents := ListSetSlice(contents, start, stop, xs);
    }

    /** `get_base_list`: a plain copy of the entries. */
    method GetBaseList() returns (r: seq<string>)
      ensures r == contents
      ensures |r| == |contents| && forall k :: 0 <= k < |r| ==> r[k] == contents[k]
    {
      r := contents;
    }
  }
}

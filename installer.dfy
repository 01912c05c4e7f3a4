/** The installer of the `runtime_syspath.syspath_sleuth` package: it puts the
    sleuth's source into the user or system customize module and takes it
    out again, keeping a reverse patch beside the customize file.

    The file system is a map from path to content (a path is a file when it
    is in the map). Each step is a function from the world before to the
    world after plus an outcome; a step that raises leaves whatever it
    changed before raising. The `Installer` class performs the same steps
    one by one on its fields and is proved to agree with these functions. */
module Installer {
  import opened Wrappers
  import opened PyPath
  import opened Host
  import opened PyLogging
  import opened ReversePatch
  import Sleuth

  const PRE_SLEUTH_SUFFIX := ".pre_sleuth"
  const REVERSE_PATCH_SUFFIX := ".patch"
  const SLEUTH_NAME := "SysPathSleuth"
  const NO_SYSTEM_SITE := "No system site found!"

  /** `sleuth_logger` (the package logger, to stdout) or `error_logger`
      (its `.error` child, to stderr). */
  datatype LogName = SleuthLog | ErrorLog

  /** One logging call, before any level filtering. */
  datatype Record = Record(logger: LogName, level: int, message: string)

  datatype World = World(fs: map<Path, string>, log: seq<Record>)

  /** What the installer raises. */
  datatype Failure =
    | InstallError(message: string)
    | UninstallError(message: string)
    | FileNotFound(path: Path)     // FileNotFoundError from open, copy or read
    | FileExists(path: Path)       // FileExistsError from open(..., "x")
    | InvalidPatch(path: Path)     // ValueError from patch_fromText

  datatype Step = Step(w: World, outcome: Outcome<Failure>)

  /** A customize path always names a file. */
  predicate NamesFile(c: Path) {
    Name(c) != ""
  }

  function PreSleuthPath(c: Path): Path
    requires NamesFile(c)
  {
    WithSuffix(c, PRE_SLEUTH_SUFFIX)
  }

  function PatchPath(c: Path): Path
    requires NamesFile(c)
  {
    WithSuffix(c, REVERSE_PATCH_SUFFIX)
  }

  function Log(w: World, r: Record): World {
    w.(log := w.log + [r])
  }

  /** `later`'s log is `earlier`'s with records appended: nothing logged is
      ever taken back. */
  predicate LogExtends(earlier: World, later: World) {
    |earlier.log| <= |later.log| && later.log[..|earlier.log|] == earlier.log
  }

  lemma LogExtendsTrans(a: World, b: World, c: World)
    requires LogExtends(a, b) && LogExtends(b, c)
    ensures LogExtends(a, c)
  {
    assert c.log[..|a.log|] == c.log[..|b.log|][..|a.log|];
  }

  function Scope(isUser: bool): string {
    if isUser then "user" else "system"
  }

  // ---------------------------------------------------------------------
  // Selecting the customize file
  // ---------------------------------------------------------------------

  /** The first site-packages entry from `from` on whose text contains
      "site-packages". */
  function FirstNamedSitePackages(dirs: seq<Path>, from: nat): (r: Option<nat>)
    requires from <= |dirs|
    ensures r.Some? ==> (from <= r.value < |dirs| && Contains(ToString(dirs[r.value]), SITE_PACKAGES) &&
      forall j :: from <= j < r.value ==> !Contains(ToString(dirs[j]), SITE_PACKAGES))
    ensures r.None? ==> forall j :: from <= j < |dirs| ==> !Contains(ToString(dirs[j]), SITE_PACKAGES)
    decreases |dirs| - from
  {
    if from == |dirs| then None
    else if Contains(ToString(dirs[from]), SITE_PACKAGES) then Some(from)
    else FirstNamedSitePackages(dirs, from + 1)
  }

  /** `get_system_customize_path`: InstallError when no entry qualifies. */
  function SystemCustomizePath(site: Site): (r: Result<Path, Failure>)
    ensures r.Success? ==> Name(r.value) == SITE_CUSTOMIZE
    ensures r.Failure? <==> forall j :: 0 <= j < |site.sitePackages| ==> !Contains(ToString(site.sitePackages[j]), SITE_PACKAGES)
    ensures r.Failure? ==> r.error == InstallError(NO_SYSTEM_SITE)
    ensures r.Success? ==> (exists k :: 0 <= k < |site.sitePackages| && Contains(ToString(site.sitePackages[k]), SITE_PACKAGES) &&
                             (forall j :: 0 <= j < k ==> !Contains(ToString(site.sitePackages[j]), SITE_PACKAGES)) &&
                             r.value == Join(site.sitePackages[k], SITE_CUSTOMIZE))
  {
    match FirstNamedSitePackages(site.sitePackages, 0)
    case Some(k) => Success(Join(site.sitePackages[k], SITE_CUSTOMIZE))
    case None => Failure(InstallError(NO_SYSTEM_SITE))
  }

  /** `get_customize_path`: the user customize file when the user site is
      enabled, the system one otherwise; the flag says which. */
  function CustomizePath(site: Site): (r: Result<(Path, bool), Failure>)
    ensures r.Success? ==> (r.value.1 <==> UserSiteEnabled(site))
    ensures UserSiteEnabled(site) ==> r == Success((UserCustomizePath(site), true))
    ensures !UserSiteEnabled(site) ==> r.Success? == SystemCustomizePath(site).Success?
    ensures !UserSiteEnabled(site) && r.Success? ==> r.value.0 == SystemCustomizePath(site).value
    ensures !UserSiteEnabled(site) && r.Failure? ==> r.error == SystemCustomizePath(site).error
    ensures r.Success? ==> Name(r.value.0) == (if r.value.1 then USER_CUSTOMIZE else SITE_CUSTOMIZE)
  {
    if UserSiteEnabled(site) then Success((UserCustomizePath(site), true))
    else
      match SystemCustomizePath(site)
      case Success(c) => Success((c, false))
      case Failure(e) => Failure(e)
  }

  /** `get_relative_path`: relative to the working directory when it lies
      under it, unchanged otherwise. */
  function GetRelativePath(p: Path, env: Env): (r: Path)
    ensures RelativeTo(p, Absolute(env.cwd)).Some? ==> !r.absolute && env.cwd + r.parts == p.parts
    ensures RelativeTo(p, Absolute(env.cwd)).None? ==> r == p
  {
    match RelativeTo(p, Absolute(env.cwd))
    case Some(r) => r
    case None => p
  }

  /** `get_name_and_relative_path`: a custom sleuth is named after its file
      and shown relative to the working directory; the packaged one is
      named `SysPathSleuth` and shown as the sleuth's `relative_path`. */
  function NameAndRelativePath(c: Path, custom: Option<Path>, env: Env): (string, Path) {
    if custom.Some? then (Name(custom.value), GetRelativePath(c, env))
    else (SLEUTH_NAME, Sleuth.ShortPath(c, env))
  }

  /** The sleuth's kill switch is off: whatever it finds installed, it
      reports as active. */
  ghost predicate NeverKilled(environ: Environ) {
    forall site: Site, moduleName: string, files: set<Path> ::
      Sleuth.SleuthActive(site, moduleName, files, environ) ==
      (Sleuth.ActiveInUserSite(site, moduleName, files) || Sleuth.ActiveInSystemSite(site, moduleName, files))
  }

  /** The kill switch is off exactly when the kill variable is unset: a
      sleuth installed in the user site of an interpreter with the user
      site enabled is reported inactive once it is set. */
  lemma KillVarDecides(environ: Environ)
    ensures NeverKilled(environ) <==> KILL_VAR !in environ
  {
    if KILL_VAR in environ {
      var site := Site(true, true, Path(true, []), [], {});
      var files := {UserCustomizePath(site)};
      assert Sleuth.ActiveInUserSite(site, USER_CUSTOMIZE, files);
      assert !Sleuth.SleuthActive(site, USER_CUSTOMIZE, files, environ);
    }
  }

  /** `is_install_on_import`: installing on import is requested and the
      sleuth would not be killed once installed. */
  predicate IsInstallOnImport(environ: Environ)
    ensures IsInstallOnImport(environ) <==> INSTALL_ON_IMPORT_VAR in environ && NeverKilled(environ)
  {
    KillVarDecides(environ);
    INSTALL_ON_IMPORT_VAR in environ && KILL_VAR !in environ
  }

  // ---------------------------------------------------------------------
  // The steps
  // ---------------------------------------------------------------------

  function CreatingMessage(c: Path): string {
    "Creating system site " + Name(c)
  }

  function AppendingMessage(c: Path, custom: Option<Path>, env: Env): string {
    var (name, shown) := NameAndRelativePath(c, custom, env);
    "Appending " + name + " to site customize: " + ToString(shown)
  }

  function RemovingMessage(c: Path, env: Env): string {
    "Removing " + SLEUTH_NAME + " from site customize: " + ToString(Sleuth.ShortPath(c, env))
  }

  function ReinstallingMessage(c: Path, custom: Option<Path>, env: Env, isUser: bool): string {
    "Reinstalling " + NameAndRelativePath(c, custom, env).0 + " in " + Scope(isUser) + " site..."
  }

  function PatchFailedMessage(c: Path): string
    requires NamesFile(c)
  {
    "Reverse patch failed; patch file: " + ToString(PatchPath(c)) + ".\nHand edit removal of " + SLEUTH_NAME
  }

  function NotWrappingMessage(c: Path, custom: Option<Path>, env: Env): string {
    ToString(NameAndRelativePath(c, custom, env).1) + " does not wrap sys.path with a SysPathSleuth."
  }

  function NotInstalledMessage(c: Path, env: Env, isUser: bool): string {
    SLEUTH_NAME + " was not installed in " + Scope(isUser) + " site: " + ToString(Sleuth.ShortPath(c, env))
  }

  function UninstalledMessage(c: Path, env: Env, isUser: bool): string {
    SLEUTH_NAME + " uninstalled from " + Scope(isUser) + " site: " + ToString(Sleuth.ShortPath(c, env))
  }

  /** `create_site_customize`: `touch` makes the file exist and keeps any
      content it had. */
  function Touch(w: World, c: Path): (r: World)
    ensures c in r.fs && (c in w.fs ==> r.fs == w.fs)
    ensures c !in w.fs ==> r.fs == w.fs[c := ""]
    ensures r.log == w.log + [Record(SleuthLog, INFO, CreatingMessage(c))]
  {
    Log(w, Record(SleuthLog, INFO, CreatingMessage(c))).(fs := if c in w.fs then w.fs else w.fs[c := ""])
  }

  /** `copy_site_customize`: the `.pre_sleuth` sibling becomes a copy. */
  function Copy(w: World, c: Path): (r: Step)
    requires NamesFile(c)
    ensures r.w.log == w.log
    ensures r.outcome.Fail? <==> c !in w.fs
    ensures r.outcome.Fail? ==> r == Step(w, Fail(FileNotFound(c)))
    ensures r.outcome.Pass? ==> r.w.fs == w.fs[PreSleuthPath(c) := w.fs[c]]
  {
    if c !in w.fs then Step(w, Fail(FileNotFound(c)))
    else Step(w.(fs := w.fs[PreSleuthPath(c) := w.fs[c]]), Pass)
  }

  /** Writing `data` from offset 0 over `current` (`open("r+")` then
      `writelines`): the file is not truncated, so a longer old content
      keeps its tail. */
  function Overwrite(current: string, data: string): (r: string)
    ensures |r| == if |data| < |current| then |current| else |data|
    ensures r[..|data|] == data
    ensures |data| < |current| ==> r[|data|..] == current[|data|..]
  {
    if |data| < |current| then data + current[|data|..] else data
  }

  /** The sleuth source the `append_sleuth_to_customize` step writes: the
      custom file's content, or the packaged module's source. */
  function SleuthData(w: World, custom: Option<Path>, source: string): Option<string> {
    if custom.None? then Some(source)
    else if custom.value in w.fs then Some(w.fs[custom.value])
    else None
  }

  /** `append_sleuth_to_customize`: logs first, then reads the sleuth source
      and writes it over the start of the customize file. */
  function AppendSleuth(w: World, c: Path, custom: Option<Path>, source: string, env: Env): (r: Step)
    ensures r.w.log == w.log + [Record(SleuthLog, INFO, AppendingMessage(c, custom, env))]
    ensures r.outcome.Fail? <==> SleuthData(w, custom, source).None? || c !in w.fs
    ensures r.outcome.Fail? ==> r.w.fs == w.fs
    ensures SleuthData(w, custom, source).None? ==> r.outcome == Fail(FileNotFound(custom.value))
    ensures r.outcome.Pass? ==> r.w.fs == w.fs[c := Overwrite(w.fs[c], SleuthData(w, custom, source).value)]
  {
    var w1 := Log(w, Record(SleuthLog, INFO, AppendingMessage(c, custom, env)));
    match SleuthData(w, custom, source)
    case None => Step(w1, Fail(FileNotFound(custom.value)))
    case Some(data) =>
      if c !in w.fs then Step(w1, Fail(FileNotFound(c)))
      else Step(w1.(fs := w.fs[c := Overwrite(w.fs[c], data)]), Pass)
  }

  /** `create_reverse_sleuth_patch`. Its guard tests two bound methods and
      so always holds: both files are then read, the patch from the
      customize content back to the copy is created exclusively, and the
      copy is removed. */
  function MakeReversePatch(w: World, c: Path): (r: Step)
    requires NamesFile(c)
    ensures r.w.log == w.log
    ensures r.outcome.Fail? ==> r.w == w
    ensures r.outcome.Fail? <==> c !in w.fs || PreSleuthPath(c) !in w.fs || PatchPath(c) in w.fs
    ensures c in w.fs && PreSleuthPath(c) in w.fs && PatchPath(c) in w.fs ==> r.outcome == Fail(FileExists(PatchPath(c)))
    ensures r.outcome.Pass? ==> (r.w.fs ==
      w.fs[PatchPath(c) := EncodePatch(MakePatch(w.fs[c], w.fs[PreSleuthPath(c)]))] - {PreSleuthPath(c)})
  {
    var pre := PreSleuthPath(c);
    if c !in w.fs then Step(w, Fail(FileNotFound(c)))
    else if pre !in w.fs then Step(w, Fail(FileNotFound(pre)))
    else if PatchPath(c) in w.fs then Step(w, Fail(FileExists(PatchPath(c))))
    else
      var patch := MakePatch(w.fs[c], w.fs[pre]);
      Step(w.(fs := w.fs[PatchPath(c) := EncodePatch(patch)] - {pre}), Pass)
  }

  /** The content `reverse_patch_sleuth` would restore, if the patch file
      reads as a patch and applies to the current content. */
  function Restored(w: World, c: Path): Option<string>
    requires NamesFile(c) && PatchPath(c) in w.fs
  {
    match DecodePatch(w.fs[PatchPath(c)])
    case None => None
    case Some(patch) => if c in w.fs then ApplyPatch(patch, w.fs[c]) else None
  }

  /** `reverse_patch_sleuth`: nothing happens without a patch file. Otherwise
      a patch that does not apply raises and leaves both files alone; one
      that applies puts back non-empty content or removes an emptied file,
      and the patch file goes. */
  function Reverse(w: World, c: Path, env: Env): (r: Step)
    requires NamesFile(c)
    ensures PatchPath(c) !in w.fs ==> r == Step(w, Pass)
    ensures PatchPath(c) in w.fs ==> r.w.log == w.log + [Record(SleuthLog, INFO, RemovingMessage(c, env))]
    ensures LogExtends(w, r.w)
    ensures r.outcome.Fail? ==> r.w.fs == w.fs
    ensures PatchPath(c) in w.fs ==> (r.outcome.Pass? <==> Restored(w, c).Some?)
    ensures (PatchPath(c) in w.fs && c in w.fs && DecodePatch(w.fs[PatchPath(c)]).Some? &&
             ApplyPatch(DecodePatch(w.fs[PatchPath(c)]).value, w.fs[c]).None?) ==>
      r.outcome == Fail(UninstallError(PatchFailedMessage(c)))
    ensures PatchPath(c) in w.fs && Restored(w, c).Some? ==>
      var restored := Restored(w, c).value;
      r.w.fs == if restored != "" then w.fs[c := restored] - {PatchPath(c)} else w.fs - {PatchPath(c)} - {c}
  {
    var pp := PatchPath(c);
    if pp !in w.fs then Step(w, Pass)
    else
      var w1 := Log(w, Record(SleuthLog, INFO, RemovingMessage(c, env)));
      match DecodePatch(w.fs[pp])
      case None => Step(w1, Fail(InvalidPatch(pp)))
      case Some(patch) =>
        if c !in w.fs then Step(w1, Fail(FileNotFound(c)))
        else
          match ApplyPatch(patch, w.fs[c])
          case None => Step(w1, Fail(UninstallError(PatchFailedMessage(c))))
          case Some(restored) =>
            var saved := if restored != "" then w.fs[c := restored] else w.fs;
            var unlinked := saved - {pp};
            Step(w1.(fs := if restored == "" then unlinked - {c} else unlinked), Pass)
  }

  /** The four steps of an installation proper, after any reinstall reversal. */
  function InstallSteps(w: World, c: Path, custom: Option<Path>, source: string, env: Env): (r: Step)
    requires NamesFile(c)
    ensures LogExtends(w, r.w) && |r.w.log| > |w.log| && r.w.log[|w.log|] == Record(SleuthLog, INFO, CreatingMessage(c))
  {
    var touched := Touch(w, c);
    var copied := Copy(touched, c);
    if copied.outcome.Fail? then copied
    else
      var appended := AppendSleuth(copied.w, c, custom, source, env);
      if appended.outcome.Fail? then appended
      else MakeReversePatch(appended.w, c)
  }

  /** `inject_sleuth`. `wraps` is what the reload check finds: whether the
      reloaded customize module defines `SysPathSleuth` and `sys.path` is an
      instance of it. */
  function Inject(w: World, site: Site, env: Env, custom: Option<Path>, source: string, wraps: bool): (r: Step)
    ensures CustomizePath(site).Failure? ==> r == Step(w, Fail(CustomizePath(site).error))
    ensures r.outcome.Pass? ==> wraps
    ensures LogExtends(w, r.w)
  {
    match CustomizePath(site)
    case Failure(e) => Step(w, Fail(e))
    case Success((c, isUser)) =>
      var warned := Log(w, Record(SleuthLog, WARNING, ReinstallingMessage(c, custom, env, isUser)));
      var reversed := if c in w.fs then Reverse(warned, c, env) else Step(w, Pass);
      assert LogExtends(w, reversed.w) by {
        if c in w.fs { LogExtendsTrans(w, warned, reversed.w); }
      }
      if reversed.outcome.Fail? then reversed
      else
        var installed := InstallSteps(reversed.w, c, custom, source, env);
        LogExtendsTrans(w, reversed.w, installed.w);
        if installed.outcome.Fail? || wraps then installed
        else
          var undone := Reverse(installed.w, c, env);
          LogExtendsTrans(w, installed.w, undone.w);
          if undone.outcome.Fail? then undone
          else Step(undone.w, Fail(InstallError(NotWrappingMessage(c, custom, env))))
  }

  /** Once the reversal of an earlier installation (if any) has left
      `start`, an injection is the install steps from `start`, then the
      reload check. */
  lemma InjectFrom(w: World, site: Site, env: Env, custom: Option<Path>, source: string, wraps: bool, start: World)
    requires CustomizePath(site).Success?
    requires var (c, isUser) := CustomizePath(site).value;
      (if c in w.fs then Reverse(Log(w, Record(SleuthLog, WARNING, ReinstallingMessage(c, custom, env, isUser))), c, env)
       else Step(w, Pass)) == Step(start, Pass)
    ensures var c := CustomizePath(site).value.0;
      var installed := InstallSteps(start, c, custom, source, env);
      Inject(w, site, env, custom, source, wraps) ==
        if installed.outcome.Fail? || wraps then installed
        else
          var undone := Reverse(installed.w, c, env);
          if undone.outcome.Fail? then undone
          else Step(undone.w, Fail(InstallError(NotWrappingMessage(c, custom, env))))
  {
  }

  /** `uninstall_sleuth` */
  function Uninstall(w: World, site: Site, env: Env): (r: Step)
    ensures CustomizePath(site).Failure? ==> r == Step(w, Fail(CustomizePath(site).error))
    ensures CustomizePath(site).Success? && CustomizePath(site).value.0 !in w.fs ==> r.outcome.Pass? && r.w.fs == w.fs
    ensures CustomizePath(site).Success? && CustomizePath(site).value.0 in w.fs && r.outcome.Pass? ==>
      PatchPath(CustomizePath(site).value.0) !in r.w.fs
    ensures LogExtends(w, r.w)
  {
    match CustomizePath(site)
    case Failure(e) => Step(w, Fail(e))
    case Success((c, isUser)) =>
      if c !in w.fs then Step(Log(w, Record(ErrorLog, WARNING, NotInstalledMessage(c, env, isUser))), Pass)
      else
        var reversed := Reverse(w, c, env);
        if reversed.outcome.Fail? then reversed
        else
          var warned := Log(reversed.w, Record(SleuthLog, WARNING, UninstalledMessage(c, env, isUser)));
          LogExtendsTrans(w, reversed.w, warned);
          Step(warned, Pass)
  }

  // ---------------------------------------------------------------------
  // The installer, step by step
  // ---------------------------------------------------------------------

  /** The file system and the log as the installer changes them, for one
      interpreter (`site`, `sys.base_prefix`, the working directory) and the
      packaged sleuth module's source. */
  class Installer {
    var fs: map<Path, string>
    var log: seq<Record>
    const site: Site
    const env: Env
    const source: string

    constructor (fs: map<Path, string>, site: Site, env: Env, source: string)
      ensures this.fs == fs && log == [] && this.site == site && this.env == env && this.source == source
    {
      this.fs := fs;
      log := [];
      this.site := site;
      this.env := env;
      this.source := source;
    }

    function State(): World
      reads this
    {
      World(fs, log)
    }

    method GetSystemCustomizePath() returns (r: Result<Path, Failure>)
      ensures r == SystemCustomizePath(site)
    {
      var i := 0;
      while i < |site.sitePackages|
        invariant 0 <= i <= |site.sitePackages|
        invariant FirstNamedSitePackages(site.sitePackages, i) == FirstNamedSitePackages(site.sitePackages, 0)
      {
        if Contains(ToString(site.sitePackages[i]), SITE_PACKAGES) {
          return Success(Join(site.sitePackages[i], SITE_CUSTOMIZE));
        }
        i := i + 1;
      }
      return Failure(InstallError(NO_SYSTEM_SITE));
    }

    /** `get_customize_path`; creating the user site directory is not modelled. */
    method GetCustomizePath() returns (r: Result<(Path, bool), Failure>)
      ensures r == CustomizePath(site)
    {
      if site.enableUserSite && site.userSiteAllowed {
        return Success((UserCustomizePath(site), true));
      }
      var system := GetSystemCustomizePath();
      if system.Failure? {
        return Failure(system.error);
      }
      return Success((system.value, false));
    }

    method CreateSiteCustomize(c: Path)
      modifies this
      ensures State() == Touch(old(State()), c)
    {
      log := log + [Record(SleuthLog, INFO, CreatingMessage(c))];
      if c !in fs {
        fs := fs[c := ""];
      }
    }

    method CopySiteCustomize(c: Path) returns (o: Outcome<Failure>)
      requires NamesFile(c)
      modifies this
      ensures Step(State(), o) == Copy(old(State()), c)
    {
      if c !in fs {
        return Fail(FileNotFound(c));
      }
      fs := fs[PreSleuthPath(c) := fs[c]];
      return Pass;
    }

    method AppendSleuthToCustomize(c: Path, custom: Option<Path>) returns (o: Outcome<Failure>)
      modifies this
      ensures Step(State(), o) == AppendSleuth(old(State()), c, custom, source, env)
    {
      log := log + [Record(SleuthLog, INFO, AppendingMessage(c, custom, env))];
      var data := source;
      if custom.Some? {
        if custom.value !in fs {
          return Fail(FileNotFound(custom.value));
        }
        data := fs[custom.value];
      }
      if c !in fs {
        return Fail(FileNotFound(c));
      }
      fs := fs[c := Overwrite(fs[c], data)];
      return Pass;
    }

    method CreateReverseSleuthPatch(c: Path) returns (o: Outcome<Failure>)
      requires NamesFile(c)
      modifies this
      ensures Step(State(), o) == MakeReversePatch(old(State()), c)
    {
      var pre := PreSleuthPath(c);
      if c !in fs {
        return Fail(FileNotFound(c));
      }
      var customize := fs[c];
      if pre !in fs {
        return Fail(FileNotFound(pre));
      }
      var preSleuth := fs[pre];
      var patchPath := PatchPath(c);
      if patchPath in fs {
        return Fail(FileExists(patchPath));
      }
      fs := fs[patchPath := EncodePatch(MakePatch(customize, preSleuth))];
      fs := fs - {pre};
      return Pass;
    }

    method ReversePatchSleuth(c: Path) returns (o: Outcome<Failure>)
      requires NamesFile(c)
      modifies this
      ensures Step(State(), o) == Reverse(old(State()), c, env)
    {
      var patchPath := PatchPath(c);
      if patchPath !in fs {
        return Pass;
      }
      var shown := Sleuth.RelativePath(c, env);
      log := log + [Record(SleuthLog, INFO, "Removing " + SLEUTH_NAME + " from site customize: " + ToString(shown))];
      var patch := DecodePatch(fs[patchPath]);
      if patch.None? {
        return Fail(InvalidPatch(patchPath));
      }
      if c !in fs {
        return Fail(FileNotFound(c));
      }
      var patched := ApplyPatch(patch.value, fs[c]);
      if patched.None? {
        return Fail(UninstallError(PatchFailedMessage(c)));
      }
      var savePatched := patched.value != "";
      if savePatched {
        fs := fs[c := patched.value];
      }
      fs := fs - {patchPath};
      if !savePatched {
        fs := fs - {c};
      }
      return Pass;
    }

    method InjectSleuth(custom: Option<Path>, wraps: bool) returns (o: Outcome<Failure>)
      modifies this
      ensures Step(State(), o) == Inject(old(State()), site, env, custom, source, wraps)
    {
      ghost var w0 := State();
      var found := GetCustomizePath();
      if found.Failure? {
        return Fail(found.error);
      }
      var (c, isUser) := found.value;
      if c in fs {
        log := log + [Record(SleuthLog, WARNING, ReinstallingMessage(c, custom, env, isUser))];
        o := ReversePatchSleuth(c);
        if o.Fail? {
          return;
        }
      }
      ghost var start := State();
      InjectFrom(w0, site, env, custom, source, wraps, start);
      CreateSiteCustomize(c);
      o := CopySiteCustomize(c);
      if o.Fail? {
        return;
      }
      o := AppendSleuthToCustomize(c, custom);
      if o.Fail? {
        assert Step(State(), o) == InstallSteps(start, c, custom, source, env);
        return;
      }
      o := CreateReverseSleuthPatch(c);
      assert Step(State(), o) == InstallSteps(start, c, custom, source, env);
      if o.Fail? || wraps {
        return;
      }
      o := ReversePatchSleuth(c);
      if o.Fail? {
        return;
      }
      return Fail(InstallError(NotWrappingMessage(c, custom, env)));
    }

    method UninstallSleuth() returns (o: Outcome<Failure>)
      modifies this
      ensures Step(State(), o) == Uninstall(old(State()), site, env)
    {
      var found := GetCustomizePath();
      if found.Failure? {
        return Fail(found.error);
      }
      var (c, isUser) := found.value;
      if c !in fs {
        log := log + [Record(ErrorLog, WARNING, NotInstalledMessage(c, env, isUser))];
        return Pass;
      }
      o := ReversePatchSleuth(c);
      if o.Fail? {
        return;
      }
      log := log + [Record(SleuthLog, WARNING, UninstalledMessage(c, env, isUser))];
      return Pass;
    }
  }
}

/** What the install protocol guarantees across steps: where the files
    end up after an installation, that uninstalling undoes it, that
    installing twice is the same as installing once, that a failed
    verification rolls back, and that uninstalling again changes nothing. */
module InstallerProperties {
  import opened Wrappers
  import opened PyPath
  import opened Host
  import opened PyLogging
  import opened ReversePatch
  import opened Installer
  import Sleuth

  /** The customize file's current content, "" when there is none. */
  function Base(w: World, c: Path): string {
    if c in w.fs then w.fs[c] else ""
  }

  lemma SuffixEndsLikeName(name: string)
    ensures Suffix(name) == "" || (|name| > 0 && Suffix(name)[|Suffix(name)| - 1] == name[|name| - 1])
  {
  }

  /** The customize file and its two siblings are three different files. */
  lemma SiblingsDistinct(c: Path)
    requires Name(c) == SITE_CUSTOMIZE || Name(c) == USER_CUSTOMIZE
    ensures c != PreSleuthPath(c) && c != PatchPath(c) && PreSleuthPath(c) != PatchPath(c)
  {
    SuffixEndsLikeName(Name(c));
    assert Name(c)[|Name(c)| - 1] == 'y';
    assert PRE_SLEUTH_SUFFIX[|PRE_SLEUTH_SUFFIX| - 1] == 'h';
    assert REVERSE_PATCH_SUFFIX[|REVERSE_PATCH_SUFFIX| - 1] == 'h';
    WithSuffixDistinct(c, PRE_SLEUTH_SUFFIX, REVERSE_PATCH_SUFFIX);
    WithSuffixDistinct(c, REVERSE_PATCH_SUFFIX, PRE_SLEUTH_SUFFIX);
  }

  /** A world in which the customize file `c` may hold anything but neither
      sibling exists, and a custom sleuth file, if named, exists. */
  predicate Clean(w: World, c: Path, custom: Option<Path>)
    requires NamesFile(c)
  {
    PreSleuthPath(c) !in w.fs && PatchPath(c) !in w.fs &&
    (custom.Some? ==> custom.value in w.fs && custom.value != c)
  }

  /** The data an installation writes, read before anything changed. */
  function Data(w: World, custom: Option<Path>, source: string): string {
    if custom.Some? && custom.value in w.fs then w.fs[custom.value] else source
  }

  /** The customize content an installation leaves. */
  function Installed(w: World, c: Path, custom: Option<Path>, source: string): string {
    Overwrite(Base(w, c), Data(w, custom, source))
  }

  /** The files after an installation into a clean world. */
  function InstalledFiles(w: World, c: Path, custom: Option<Path>, source: string): map<Path, string>
    requires NamesFile(c)
  {
    var v := Installed(w, c, custom, source);
    w.fs[c := v][PatchPath(c) := EncodePatch(MakePatch(v, Base(w, c)))]
  }

  /** The four installation steps on a clean world all succeed; the
      customize file starts with the sleuth source and the reverse patch
      leads back to the content it had (or to "" when it had none). */
  lemma InstallStepsClean(w: World, c: Path, custom: Option<Path>, source: string, env: Env)
    requires Name(c) == SITE_CUSTOMIZE || Name(c) == USER_CUSTOMIZE
    requires Clean(w, c, custom)
    ensures InstallSteps(w, c, custom, source, env) ==
      Step(World(InstalledFiles(w, c, custom, source), w.log +
        [Record(SleuthLog, INFO, CreatingMessage(c)), Record(SleuthLog, INFO, AppendingMessage(c, custom, env))]), Pass)
  {
    SiblingsDistinct(c);
    var pre := PreSleuthPath(c);
    var pp := PatchPath(c);
    var u := Base(w, c);
    var data := Data(w, custom, source);
    var v := Installed(w, c, custom, source);
    var touched := Touch(w, c);
    assert touched.fs[c] == u;
    var copied := Copy(touched, c);
    assert copied.outcome == Pass;
    assert copied.w.fs == touched.fs[pre := u];
    if custom.Some? {
      assert copied.w.fs[custom.value] == w.fs[custom.value];
    }
    assert SleuthData(copied.w, custom, source) == Some(data);
    var appended := AppendSleuth(copied.w, c, custom, source, env);
    assert appended.outcome == Pass;
    assert appended.w.fs == touched.fs[pre := u][c := v];
    assert appended.w.fs[pre] == u && appended.w.fs[c] == v && pp !in appended.w.fs;
    var made := MakeReversePatch(appended.w, c);
    assert made.outcome == Pass;
    assert made.w.fs == touched.fs[pre := u][c := v][pp := EncodePatch(MakePatch(v, u))] - {pre};
    MapShuffle(w.fs, touched.fs, c, pre, pp, u, v, EncodePatch(MakePatch(v, u)));
    var creating := Record(SleuthLog, INFO, CreatingMessage(c));
    var appending := Record(SleuthLog, INFO, AppendingMessage(c, custom, env));
    assert made.w.log == w.log + [creating] + [appending];
    AppendTwo(w.log, creating, appending);
    assert made.w == World(InstalledFiles(w, c, custom, source), w.log + [creating, appending]);
    InstallStepsPassed(w, c, custom, source, env, appended.w);
  }

  lemma AppendTwo(log: seq<Record>, a: Record, b: Record)
    ensures log + [a] + [b] == log + [a, b]
  {
  }

  /** When copying and appending pass, the install steps end with making
      the reverse patch from what appending left. */
  lemma InstallStepsPassed(w: World, c: Path, custom: Option<Path>, source: string, env: Env, appended: World)
    requires NamesFile(c)
    requires Copy(Touch(w, c), c).outcome.Pass?
    requires AppendSleuth(Copy(Touch(w, c), c).w, c, custom, source, env) == Step(appended, Pass)
    ensures InstallSteps(w, c, custom, source, env) == MakeReversePatch(appended, c)
  {
  }

  /** Updating `c`, a fresh `pre` and a fresh `pp` and then dropping `pre`
      is updating `c` and `pp` alone. */
  lemma MapShuffle(m: map<Path, string>, t: map<Path, string>, c: Path, pre: Path, pp: Path, u: string, v: string, e: string)
    requires pre !in m && pp !in m && c != pre && pre != pp
    requires t == (if c in m then m else m[c := ""])
    ensures t[pre := u][c := v][pp := e] - {pre} == m[c := v][pp := e]
  {
  }

  /** Writing `c` and a fresh `pp` is undone by dropping `pp` and either
      putting back the old content of `c` or dropping `c`. */
  lemma UndoUpdates(m: map<Path, string>, c: Path, pp: Path, v: string, e: string)
    requires pp !in m && c != pp
    ensures m[c := v][pp := e] - {pp} - {c} == m - {c}
    ensures c in m ==> m[c := v][pp := e][c := m[c]] - {pp} == m
  {
  }

  /** Reversing an installation made into a clean world puts the customize
      file back as it was, except that a file that was empty is removed. */
  lemma ReverseInstalled(w: World, c: Path, custom: Option<Path>, source: string, env: Env, log: seq<Record>)
    requires Name(c) == SITE_CUSTOMIZE || Name(c) == USER_CUSTOMIZE
    requires Clean(w, c, custom)
    ensures Reverse(World(InstalledFiles(w, c, custom, source), log), c, env) ==
      Step(World(if Base(w, c) != "" then w.fs else w.fs - {c}, log + [Record(SleuthLog, INFO, RemovingMessage(c, env))]), Pass)
  {
    SiblingsDistinct(c);
    var u := Base(w, c);
    var v := Installed(w, c, custom, source);
    var patch := MakePatch(v, u);
    var pp := PatchPath(c);
    var fs := InstalledFiles(w, c, custom, source);
    assert fs == w.fs[c := v][pp := EncodePatch(patch)];
    DecodeEncode(patch);
    MakeThenApply(v, u, v);
    assert fs[c] == v && fs[pp] == EncodePatch(patch);
    var installed := World(fs, log);
    assert Restored(installed, c) == Some(u);
    var r := Reverse(installed, c, env);
    assert r.outcome == Pass;
    assert r.w.fs == if u != "" then fs[c := u] - {pp} else fs - {pp} - {c};
    UndoUpdates(w.fs, c, pp, v, EncodePatch(patch));
    assert r.w.fs == if u != "" then w.fs else w.fs - {c};
  }

  /** How `inject_sleuth` goes on once the reinstall reversal (if any) has
      passed and left the files `start`, and the four steps have passed:
      with a successful reload check that is the result; otherwise the
      installation is reversed and InstallError raised. */
  lemma InjectFromStart(w: World, site: Site, env: Env, custom: Option<Path>, source: string, wraps: bool,
                        start: World, installed: Step)
    requires CustomizePath(site).Success?
    requires var (c, isUser) := CustomizePath(site).value;
      (if c in w.fs then Reverse(Log(w, Record(SleuthLog, WARNING, ReinstallingMessage(c, custom, env, isUser))), c, env)
       else Step(w, Pass)) == Step(start, Pass)
    requires var c := CustomizePath(site).value.0;
      InstallSteps(start, c, custom, source, env) == installed && installed.outcome.Pass?
    ensures wraps ==> Inject(w, site, env, custom, source, wraps) == installed
    ensures !wraps ==> var c := CustomizePath(site).value.0; var undone := Reverse(installed.w, c, env);
      Inject(w, site, env, custom, source, wraps) ==
        if undone.outcome.Fail? then undone else Step(undone.w, Fail(InstallError(NotWrappingMessage(c, custom, env))))
  {
  }

  /** The files an installation into a clean world leaves, as they are
      built: the customize file starts with the data written (and is only
      that data when it was empty or absent), the reverse patch is beside
      it, and no `.pre_sleuth` copy remains. */
  lemma InstalledFilesShape(w: World, c: Path, custom: Option<Path>, source: string)
    requires Name(c) == SITE_CUSTOMIZE || Name(c) == USER_CUSTOMIZE
    requires Clean(w, c, custom)
    ensures var fs := InstalledFiles(w, c, custom, source);
      c in fs && PatchPath(c) in fs && PreSleuthPath(c) !in fs &&
      fs[c][..|Data(w, custom, source)|] == Data(w, custom, source) &&
      (Base(w, c) == "" ==> fs[c] == Data(w, custom, source))
  {
    SiblingsDistinct(c);
  }

  /** An installation into a clean world succeeds when verification does, and
      leaves the customize file holding the sleuth source over its old start,
      the reverse patch beside it, and no `.pre_sleuth` copy. */
  lemma InjectClean(w: World, site: Site, env: Env, custom: Option<Path>, source: string)
    requires CustomizePath(site).Success?
    requires var c := CustomizePath(site).value.0; Clean(w, c, custom)
    ensures var c := CustomizePath(site).value.0;
      var r := Inject(w, site, env, custom, source, true);
      r.outcome == Pass && r.w.fs == InstalledFiles(w, c, custom, source) &&
      c in r.w.fs && PatchPath(c) in r.w.fs && PreSleuthPath(c) !in r.w.fs &&
      r.w.fs[c][..|Data(w, custom, source)|] == Data(w, custom, source) &&
      (Base(w, c) == "" ==> r.w.fs[c] == Data(w, custom, source))
  {
    var (c, isUser) := CustomizePath(site).value;
    SiblingsDistinct(c);
    var warned := Log(w, Record(SleuthLog, WARNING, ReinstallingMessage(c, custom, env, isUser)));
    var start := if c in w.fs then warned else w;
    assert start.fs == w.fs;
    assert Clean(start, c, custom);
    InstallStepsClean(start, c, custom, source, env);
    var installed := InstallSteps(start, c, custom, source, env);
    InjectFromStart(w, site, env, custom, source, true, start, installed);
    assert InstalledFiles(start, c, custom, source) == InstalledFiles(w, c, custom, source);
    InstalledFilesShape(w, c, custom, source);
  }

  /** Whatever happens, a successful installation leaves the customize file
      and its reverse patch, and no `.pre_sleuth` copy. */
  lemma InjectPostcondition(w: World, site: Site, env: Env, custom: Option<Path>, source: string, wraps: bool)
    requires Inject(w, site, env, custom, source, wraps).outcome.Pass?
    ensures CustomizePath(site).Success?
    ensures var c := CustomizePath(site).value.0; var r := Inject(w, site, env, custom, source, wraps);
      c in r.w.fs && PatchPath(c) in r.w.fs && PreSleuthPath(c) !in r.w.fs &&
      (custom.None? ==> |r.w.fs[c]| >= |source| && r.w.fs[c][..|source|] == source)
  {
    var (c, isUser) := CustomizePath(site).value;
    var start :=
      if c in w.fs then Reverse(Log(w, Record(SleuthLog, WARNING, ReinstallingMessage(c, custom, env, isUser))), c, env).w
      else w;
    InjectPassed(w, site, env, custom, source, wraps, start);
    InstallStepsPostcondition(start, c, custom, source, env);
  }

  /** An injection that passes is the install steps run on the state the
      reversal of an earlier install left. */
  lemma InjectPassed(w: World, site: Site, env: Env, custom: Option<Path>, source: string, wraps: bool, start: World)
    requires Inject(w, site, env, custom, source, wraps).outcome.Pass?
    requires CustomizePath(site).Success?
    requires var (c, isUser) := CustomizePath(site).value;
      start == if c in w.fs then Reverse(Log(w, Record(SleuthLog, WARNING, ReinstallingMessage(c, custom, env, isUser))), c, env).w
      else w
    ensures var c := CustomizePath(site).value.0;
      Inject(w, site, env, custom, source, wraps) == InstallSteps(start, c, custom, source, env)
  {
  }

  /** After a successful installation the sleuth finds itself installed:
      in the user site when that is enabled, and in the system site when
      the installer's directory is also the one the sleuth checks. */
  lemma InjectedIsDetected(w: World, site: Site, env: Env, custom: Option<Path>, source: string, wraps: bool)
    requires Inject(w, site, env, custom, source, wraps).outcome.Pass?
    ensures var files := Inject(w, site, env, custom, source, wraps).w.fs.Keys;
      (UserSiteEnabled(site) ==> Sleuth.ActiveInUserSite(site, USER_CUSTOMIZE, files)) &&
      (!UserSiteEnabled(site) && Sleuth.SystemCustomizePath(site) == Some(SystemCustomizePath(site).value) ==>
         Sleuth.ActiveInSystemSite(site, SITE_CUSTOMIZE, files))
  {
    InjectPostcondition(w, site, env, custom, source, wraps);
  }

  lemma InstallStepsPostcondition(w: World, c: Path, custom: Option<Path>, source: string, env: Env)
    requires Name(c) == SITE_CUSTOMIZE || Name(c) == USER_CUSTOMIZE
    requires InstallSteps(w, c, custom, source, env).outcome.Pass?
    ensures var fs := InstallSteps(w, c, custom, source, env).w.fs;
      c in fs && PatchPath(c) in fs && PreSleuthPath(c) !in fs &&
      (custom.None? ==> |fs[c]| >= |source| && fs[c][..|source|] == source)
  {
    SiblingsDistinct(c);
    var copied := Copy(Touch(w, c), c);
    assert copied.outcome.Pass?;
    var appended := AppendSleuth(copied.w, c, custom, source, env);
    assert appended.outcome.Pass?;
    var made := MakeReversePatch(appended.w, c);
    assert InstallSteps(w, c, custom, source, env) == made;
    assert c in appended.w.fs;
    assert made.w.fs[c] == appended.w.fs[c];
  }

  /** Uninstalling a customize file whose reversal passes reverses it and
      warns that the sleuth is uninstalled. */
  lemma UninstallPresent(w: World, site: Site, env: Env, reversed: Step)
    requires CustomizePath(site).Success? && CustomizePath(site).value.0 in w.fs
    requires Reverse(w, CustomizePath(site).value.0, env) == reversed && reversed.outcome.Pass?
    ensures var (c, isUser) := CustomizePath(site).value;
      Uninstall(w, site, env) == Step(Log(reversed.w, Record(SleuthLog, WARNING, UninstalledMessage(c, env, isUser))), Pass)
  {
  }

  /** Uninstalling right after installing into a clean world restores the
      file system, except that an empty customize file is gone. */
  lemma InjectThenUninstall(w: World, site: Site, env: Env, custom: Option<Path>, source: string)
    requires CustomizePath(site).Success?
    requires var c := CustomizePath(site).value.0; Clean(w, c, custom)
    ensures var c := CustomizePath(site).value.0;
      var installed := Inject(w, site, env, custom, source, true);
      var removed := Uninstall(installed.w, site, env);
      installed.outcome == Pass && removed.outcome == Pass &&
      removed.w.fs == (if c in w.fs && w.fs[c] == "" then w.fs - {c} else w.fs)
  {
    var (c, isUser) := CustomizePath(site).value;
    InjectClean(w, site, env, custom, source);
    var installed := Inject(w, site, env, custom, source, true);
    assert installed.w == World(InstalledFiles(w, c, custom, source), installed.w.log);
    ReverseInstalled(w, c, custom, source, env, installed.w.log);
    var reversed := Reverse(installed.w, c, env);
    UninstallPresent(installed.w, site, env, reversed);
    EmptyRemoved(w, c);
  }

  /** Installing over an existing customize file first reverses it under
      the reinstall warning; when that succeeds, the installation proper
      runs on the files the reversal left. */
  lemma InjectOverExisting(w: World, site: Site, env: Env, custom: Option<Path>, source: string, back: World)
    requires CustomizePath(site).Success?
    requires CustomizePath(site).value.0 in w.fs
    requires var (c, isUser) := CustomizePath(site).value;
      Reverse(Log(w, Record(SleuthLog, WARNING, ReinstallingMessage(c, custom, env, isUser))), c, env) == Step(back, Pass)
    ensures Inject(w, site, env, custom, source, true) == InstallSteps(back, CustomizePath(site).value.0, custom, source, env)
  {
  }

  /** The installation proper, run on what reversing an installation left,
      produces the same files as the first installation. */
  lemma InstallStepsAfterReverse(w: World, c: Path, custom: Option<Path>, source: string, env: Env, back: World)
    requires Name(c) == SITE_CUSTOMIZE || Name(c) == USER_CUSTOMIZE
    requires Clean(w, c, custom)
    requires back.fs == if Base(w, c) != "" then w.fs else w.fs - {c}
    ensures InstallSteps(back, c, custom, source, env) ==
      Step(World(InstalledFiles(w, c, custom, source), back.log +
        [Record(SleuthLog, INFO, CreatingMessage(c)), Record(SleuthLog, INFO, AppendingMessage(c, custom, env))]), Pass)
  {
    SiblingsDistinct(c);
    InstallStepsClean(back, c, custom, source, env);
    BackInstalled(w, back, c, custom, source);
  }

  /** The files an installation builds depend on the customize file only
      through its content, so its absence and emptiness are alike. */
  lemma BackInstalled(w: World, back: World, c: Path, custom: Option<Path>, source: string)
    requires NamesFile(c)
    requires back.fs == if Base(w, c) != "" then w.fs else w.fs - {c}
    requires custom.Some? ==> custom.value != c
    ensures InstalledFiles(back, c, custom, source) == InstalledFiles(w, c, custom, source)
  {
    assert Base(back, c) == Base(w, c);
    assert Data(back, custom, source) == Data(w, custom, source);
    var v := Installed(w, c, custom, source);
    assert back.fs[c := v] == w.fs[c := v];
  }

  /** Installing a second time ends with the same files as installing once;
      the second run logs the reinstall warning, the removal, the creation
      and the append, in that order. */
  lemma InjectTwice(w: World, site: Site, env: Env, custom: Option<Path>, source: string)
    requires CustomizePath(site).Success?
    requires var c := CustomizePath(site).value.0; Clean(w, c, custom)
    ensures var (c, isUser) := CustomizePath(site).value;
      var once := Inject(w, site, env, custom, source, true);
      var twice := Inject(once.w, site, env, custom, source, true);
      twice.outcome == Pass && twice.w.fs == once.w.fs &&
      twice.w.log == once.w.log + [
        Record(SleuthLog, WARNING, ReinstallingMessage(c, custom, env, isUser)),
        Record(SleuthLog, INFO, RemovingMessage(c, env)),
        Record(SleuthLog, INFO, CreatingMessage(c)),
        Record(SleuthLog, INFO, AppendingMessage(c, custom, env))]
  {
    var (c, isUser) := CustomizePath(site).value;
    var warning := Record(SleuthLog, WARNING, ReinstallingMessage(c, custom, env, isUser));
    var removing := Record(SleuthLog, INFO, RemovingMessage(c, env));
    InjectClean(w, site, env, custom, source);
    var once := Inject(w, site, env, custom, source, true);
    assert Log(once.w, warning) == World(InstalledFiles(w, c, custom, source), once.w.log + [warning]);
    ReverseInstalled(w, c, custom, source, env, once.w.log + [warning]);
    var back := World(if Base(w, c) != "" then w.fs else w.fs - {c}, once.w.log + [warning] + [removing]);
    InjectOverExisting(once.w, site, env, custom, source, back);
    InstallStepsAfterReverse(w, c, custom, source, env, back);
    AppendFour(once.w.log, warning, removing, Record(SleuthLog, INFO, CreatingMessage(c)),
      Record(SleuthLog, INFO, AppendingMessage(c, custom, env)));
  }

  /** Appending two records and then two more appends the four. */
  lemma AppendFour(log: seq<Record>, a: Record, b: Record, c: Record, d: Record)
    ensures log + [a] + [b] + [c, d] == log + [a, b, c, d]
  {
  }

  /** Without a successful reload check, a passing installation is
      reversed, and InstallError follows when the reversal passes. */
  lemma InjectUnverified(w: World, site: Site, env: Env, custom: Option<Path>, source: string, installed: Step)
    requires CustomizePath(site).Success?
    requires Inject(w, site, env, custom, source, true) == installed && installed.outcome.Pass?
    ensures var c := CustomizePath(site).value.0; var undone := Reverse(installed.w, c, env);
      Inject(w, site, env, custom, source, false) ==
        if undone.outcome.Fail? then undone else Step(undone.w, Fail(InstallError(NotWrappingMessage(c, custom, env))))
  {
  }

  /** Removing a customize file that was empty or absent, written two ways. */
  lemma EmptyRemoved(w: World, c: Path)
    ensures (if Base(w, c) != "" then w.fs else w.fs - {c}) == (if c in w.fs && w.fs[c] == "" then w.fs - {c} else w.fs)
  {
    if c !in w.fs {
      assert w.fs - {c} == w.fs;
    }
  }

  /** When the reloaded module does not wrap `sys.path`, an installation into
      a clean world is reversed before InstallError is raised. */
  lemma FailedVerificationRollsBack(w: World, site: Site, env: Env, custom: Option<Path>, source: string)
    requires CustomizePath(site).Success?
    requires var c := CustomizePath(site).value.0; Clean(w, c, custom)
    ensures var c := CustomizePath(site).value.0;
      var r := Inject(w, site, env, custom, source, false);
      r.outcome == Fail(InstallError(NotWrappingMessage(c, custom, env))) &&
      r.w.fs == (if c in w.fs && w.fs[c] == "" then w.fs - {c} else w.fs)
  {
    var c := CustomizePath(site).value.0;
    InjectClean(w, site, env, custom, source);
    var installed := Inject(w, site, env, custom, source, true);
    assert installed.w == World(InstalledFiles(w, c, custom, source), installed.w.log);
    ReverseInstalled(w, c, custom, source, env, installed.w.log);
    InjectUnverified(w, site, env, custom, source, installed);
    EmptyRemoved(w, c);
  }

  /** Uninstalling when the customize file is missing only warns. */
  lemma UninstallMissing(w: World, site: Site, env: Env)
    requires CustomizePath(site).Success? && CustomizePath(site).value.0 !in w.fs
    ensures var (c, isUser) := CustomizePath(site).value;
      Uninstall(w, site, env) == Step(World(w.fs, w.log + [Record(ErrorLog, WARNING, NotInstalledMessage(c, env, isUser))]), Pass)
  {
  }

  /** After a successful uninstall, uninstalling again leaves the files alone
      and logs exactly one warning. */
  lemma UninstallTwice(w: World, site: Site, env: Env)
    requires Uninstall(w, site, env).outcome.Pass?
    ensures var first := Uninstall(w, site, env); var second := Uninstall(first.w, site, env);
      second.outcome.Pass? && second.w.fs == first.w.fs &&
      |second.w.log| == |first.w.log| + 1 && second.w.log[|first.w.log|].level == WARNING
  {
    var (c, isUser) := CustomizePath(site).value;
    SiblingsDistinct(c);
    var first := Uninstall(w, site, env);
    if c in w.fs {
      assert PatchPath(c) !in first.w.fs;
    }
  }

  /** The installer's substring search finds a site directory no later than
      the sleuth's name search does, so an installation the sleuth could
      detect in the system site never fails with "No system site found!". */
  lemma InstallerSearchNoLaterThanSleuth(site: Site)
    requires Sleuth.FirstSitePackages(site, 0).Some?
    ensures FirstNamedSitePackages(site.sitePackages, 0).Some?
    ensures FirstNamedSitePackages(site.sitePackages, 0).value <= Sleuth.FirstSitePackages(site, 0).value
    ensures SystemCustomizePath(site).Success?
  {
    var k := Sleuth.FirstSitePackages(site, 0).value;
    var d := site.sitePackages[k];
    assert Name(d) == SITE_PACKAGES;
    NameInToString(d);
  }
}

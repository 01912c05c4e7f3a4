# runtime-syspath, modelled in Dafny

This project models the core of `runtime-syspath` and proves properties of the model. It covers four parts:

- **The newer sleuth** (`SysPathSleuth`). It is a `list` subclass that replaces `sys.path`:
  - Each mutating call is reported, by logging or printing, together with the call site that made it. The call is then performed as the plain list would perform it.
  - Reported file names are shortened relative to `sys.base_prefix` or the working directory.
  - It decides whether it is installed as the user or system customize module, and honours the `SYSPATH_SLEUTH_KILL` switch.
- **The installer.** It writes the sleuth's source into `usercustomize.py` or `sitecustomize.py`. It keeps a `.pre_sleuth` pre-image while installing and a `.patch` reverse patch afterwards, and it can undo the installation.
- **The search-path utilities:**
  - filtering and sorting `sys.path` for display, in two copies with separate standard filters;
  - printing the result;
  - adding discovered `src` directories without duplicates;
  - the deepest relative import an imported module can make.
- **The older sleuth** from the `syspath_sleuth` package, which differs in the ways listed under `LegacySleuth` below.

## How the model is built

### Files and modules

- `wrappers.dfy` holds Option, Result and a pass-or-error Outcome.
- `decimal.dfy` renders and reads back decimal numbers.
- `pypath.dfy` covers `PurePosixPath`: `/`, `.name`, `.suffix`, `.with_suffix`, `.relative_to` and `str`.
- `host.dfy` holds what the interpreter reports:
  - `sys.base_prefix` and the working directory;
  - the `site` settings and site directories;
  - `os.environ`.
- `pyrepr.dfy` renders the argument tuples shown in messages.
- `pylist.dfy` holds the plain `list` operations. They are the reference for the traced list.
- `pylogging.dfy` covers levels, loggers and handlers.
- `sleuth.dfy` is the newer sleuth.
- `sleuth_legacy.dfy` is the older one.
- `reverse_patch.dfy` is the reverse patch.
- `installer.dfy` is the install protocol. `installer_props.dfy` holds the lemmas about it.
- `string_order.dfy` is Python's `str` ordering and `sorted(..., reverse=True)`.
- `syspath_utils.dfy` is `syspath_utils.py`.
- `print_sorted_syspath.dfy` is `print_sorted_syspath.py`.

### How code becomes Dafny

- **Imperative code:**
  - Code that changes state becomes classes whose methods are proved against pure functions:
    - the sleuth's class-level logger and its output (`Channel`);
    - the traced list (`SysPathSleuth`);
    - the installer's file system and log (`Installer`);
    - the module-global standard filters (`StdFilter`);
    - the `sys.path` list that `add_srcdirs_to_syspath` appends to (`SearchPath`).
  - The source's loops stay loops: the handler scan, the `relative_path` walk, the site-packages scans, the `src` loop and the print loop.
- **External calls:**
  - These become parameters: the caller's frame (None when it does not resolve), the working directory, the installed files, the environment variables and the reload check in `inject_sleuth`.
  - Regular expressions are predicates on strings.
- **File system:** the installer's file system is a map from path to content.
  - A step that raises keeps whatever it changed before raising.
  - The installer log records each logging call as it is made.
- **Reverse patch:** `diff_match_patch` is abstract.
  - A patch made between two equal texts has no hunks and applies to anything.
  - Otherwise it applies exactly to the text it was made from and gives back the other text.
  - Its text form is this model's own, and it is proved to read back as the same patch.

### Where the model follows the code rather than its evident intent

- **The append step.** `append_sleuth_to_customize` opens the customize file with `"r+"` and writes from offset 0, so it does not append. It overwrites the start of the file, and a longer old content keeps its tail (`Installer.Overwrite`). The reverse patch still restores the old content exactly.
- **The reverse-patch guard.** The guard of `create_reverse_sleuth_patch` tests the bound methods `exists`, not their results, so it always holds. A missing pre-image therefore raises FileNotFoundError instead of being skipped.

## Model

| member | source | states |
|---|---|---|
| PyPath.RelativeTo | src/runtime_syspath/syspath_sleuth/syspath_sleuth.py:65 | defined (no ValueError) exactly when the base is a leading part of the path with the same anchoring; then base plus result is the path |
| PyPath.WithSuffix | src/runtime_syspath/syspath_sleuth/__init__.py:62 | same directory; the name's suffix is replaced by the given one |
| PyPath.WithSuffixDistinct | src/runtime_syspath/syspath_sleuth/__init__.py:81 | different suffixes give different siblings, and a suffix other than the current one gives a path other than the original |
| PyPath.NameInToString | src/runtime_syspath/syspath_sleuth/__init__.py:152 | the text of a path contains its last component, so a directory named `site-packages` passes the substring test `"site-packages" in str(dir)` |
| Host.UserCustomizePath | src/runtime_syspath/syspath_sleuth/syspath_sleuth.py:145-148 | the user customize path is named `usercustomize.py` |
| PyList.ListInsert | src/runtime_syspath/syspath_sleuth/syspath_sleuth.py:16-18 | `list.insert`: one longer; `x` at the clamped index, counted from the end when negative; the other entries in order |
| PyList.ListPop | src/runtime_syspath/syspath_sleuth/syspath_sleuth.py:28-30 | `list.pop`: IndexError on an empty list or an index out of range; otherwise returns the entry at the adjusted index and removes only it |
| PyList.ListRemove | src/runtime_syspath/syspath_sleuth/syspath_sleuth.py:32-34 | `list.remove`: ValueError exactly when the value is absent; otherwise the first occurrence is removed |
| PyList.ListDelItem | src/runtime_syspath/syspath_sleuth/syspath_sleuth.py:36-38 | `del s[i]`: IndexError exactly when `i` is out of range; otherwise the entry at the adjusted index is removed |
| PyList.ListDelSlice | src/runtime_syspath/syspath_sleuth/syspath_sleuth.py:36-38 | `del s[a:b]`: the clamped range is cut out |
| PyList.ListSetItem | src/runtime_syspath/syspath_sleuth/syspath_sleuth.py:40-42 | `s[i] = x`: IndexError exactly when `i` is out of range; otherwise only that entry changes |
| PyList.ListSetSlice | src/runtime_syspath/syspath_sleuth/syspath_sleuth.py:40-42 | `s[a:b] = xs`: the clamped range is replaced by `xs` |
| PyLogging.SetLevel | src/runtime_syspath/syspath_sleuth/syspath_sleuth.py:85 | the own level becomes `level`; the effective level is `level`, or the inherited one for NOTSET; nothing else changes |
| PyLogging.AddHandler | src/runtime_syspath/syspath_sleuth/syspath_sleuth.py:87 | the handler is attached, the earlier handlers keep their order, and at most one is added |
| PyLogging.IsLoggingOn | src/runtime_syspath/syspath_sleuth/syspath_sleuth.py:125-135 | true exactly when the effective level is not NOTSET and some handler's level is not NOTSET |
| Sleuth.Inform | src/runtime_syspath/syspath_sleuth/syspath_sleuth.py:137-142 | exactly one emission with the message; it is logged at the level exactly when logging is on and the level is enabled, and printed otherwise |
| Sleuth.WhereReport | src/runtime_syspath/syspath_sleuth/syspath_sleuth.py:97-123 | one message when the frame resolves and logging is off or INFO is enabled, none otherwise; the message is `sys.path.<action><args> from <short file>:<line>`; it is logged at INFO exactly when logging is on |
| Sleuth.CommonPrefixLength | src/runtime_syspath/syspath_sleuth/syspath_sleuth.py:69-76 | the number of leading components two paths share, and no more |
| Sleuth.StripNearestAncestorClosedForm | src/runtime_syspath/syspath_sleuth/syspath_sleuth.py:69-76 | the cwd walk strips exactly the components an absolute path shares with the working directory, and leaves a relative path unchanged |
| Sleuth.RelativePath | src/runtime_syspath/syspath_sleuth/syspath_sleuth.py:62-77 | the loop terminates and returns the path relative to `sys.base_prefix` when it lies under it, else relative to the nearest ancestor of the working directory, else unchanged |
| Sleuth.ShortPath | src/runtime_syspath/syspath_sleuth/syspath_sleuth.py:62-77 | an absolute path becomes a relative one made of its own trailing components, never longer; a relative path is left alone |
| Sleuth.ShortPathShape | src/runtime_syspath/syspath_sleuth/syspath_sleuth.py:62-77 | the shortened path in each of the three cases: under the base prefix, absolute elsewhere, relative |
| Sleuth.WhereWalkNeverEndsOnRelative | src/runtime_syspath/syspath_sleuth/syspath_sleuth.py:113-120 | the walk as written never leaves its loop for a relative frame filename, however many rounds it runs |
| Sleuth.WhereWalkEndsOnAbsolute | src/runtime_syspath/syspath_sleuth/syspath_sleuth.py:113-120 | for an absolute filename the walk as written ends within depth-of-cwd plus one rounds and agrees with the guarded walk |
| Sleuth.UnconfiguredPrints | src/runtime_syspath/syspath_sleuth/syspath_sleuth.py:125-142 | a logger nobody configured has logging off, so each report is printed, never logged |
| Sleuth.Configured | src/runtime_syspath/syspath_sleuth/syspath_sleuth.py:82-87 | a level of -1 leaves the logger's level alone, another level is set; a given handler is attached after the handlers already attached, which stay in order, and no handler is attached without one |
| Sleuth.ConfigReport | src/runtime_syspath/syspath_sleuth/syspath_sleuth.py:88-95 | at most one diagnostic, exactly when a handler is given and the configured logger's effective level is below the handler's level; its message names both levels, and it is logged exactly when the configured logger would log at INFO |
| Sleuth.ConfiguredLoggingOn | src/runtime_syspath/syspath_sleuth/syspath_sleuth.py:82-87 | configuring a set level and a handler whose level is set turns logging on at that level |
| Sleuth.Trace | src/runtime_syspath/syspath_sleuth/syspath_sleuth.py:16-42 | a series of calls emits at most one message per call |
| Sleuth.TraceIsPlainList | src/runtime_syspath/syspath_sleuth/syspath_sleuth.py:16-42 | over any series of calls, the traced list ends with the contents (or the first error) of the plain list operations |
| Sleuth.TraceReportsEachCall | src/runtime_syspath/syspath_sleuth/syspath_sleuth.py:122-123 | with every frame resolved and frames inspected, the messages a run emits are exactly `WhereMessages` of its calls: one per call, in call order |
| Sleuth.WhereMessagesAt | src/runtime_syspath/syspath_sleuth/syspath_sleuth.py:108-122 | the k-th of those messages is `_where`'s report of the k-th call's mutation and calling frame |
| Sleuth.TraceSilentBelowInfo | src/runtime_syspath/syspath_sleuth/syspath_sleuth.py:102-108 | with logging on and INFO disabled, a series of calls emits nothing |
| Sleuth.FirstSitePackages | src/runtime_syspath/syspath_sleuth/syspath_sleuth.py:155-158 | the first site directory named `site-packages` that is a directory; none qualifies before it |
| Sleuth.SystemCustomizePath | src/runtime_syspath/syspath_sleuth/syspath_sleuth.py:150-159 | `sitecustomize.py` joined to the first site directory that is named `site-packages` and is a directory (none qualifies before it); None exactly when no site directory qualifies |
| Sleuth.GetSystemCustomizePath | src/runtime_syspath/syspath_sleuth/syspath_sleuth.py:150-159 | the scanning loop returns the system customize path above |
| Sleuth.SleuthActive | src/runtime_syspath/syspath_sleuth/syspath_sleuth.py:44-60 | active exactly when the kill variable is unset and the sleuth is installed in the user or system site; never in both |
| Sleuth.ActiveInUserSite | src/runtime_syspath/syspath_sleuth/syspath_sleuth.py:162-179 | installed in the user site only when the user site is enabled and the module's file is present in the user site directory |
| Sleuth.ActiveInSystemSite | src/runtime_syspath/syspath_sleuth/syspath_sleuth.py:183-194 | installed in the system site only when the module's file is present in a site directory named `site-packages` that is a directory |
| Sleuth.ActivationReport | src/runtime_syspath/syspath_sleuth/syspath_sleuth.py:44-60 | at most two emissions; some exactly when installed in a scope; two exactly when installed and killed |
| Sleuth.ActivationReportShape | src/runtime_syspath/syspath_sleuth/syspath_sleuth.py:44-60 | one installation report when installed; a second, the kill message, exactly when also killed; nothing otherwise; the report names the scope |
| Sleuth.Channel.constructor | src/runtime_syspath/syspath_sleuth/syspath_sleuth.py:12-14 | the class logger starts at NOTSET with no handlers |
| Sleuth.Channel.InformUser | src/runtime_syspath/syspath_sleuth/syspath_sleuth.py:137-142 | appends what `Inform` gives to the output; the logger is unchanged |
| Sleuth.Channel.ConfigLogger | src/runtime_syspath/syspath_sleuth/syspath_sleuth.py:82-95 | the logger becomes `Configured`; the output gains `ConfigReport` |
| Sleuth.Channel.Where | src/runtime_syspath/syspath_sleuth/syspath_sleuth.py:97-123 | the output gains `WhereReport` (with the guarded walk); the logger is unchanged |
| Sleuth.Channel.IsActiveInUserSite | src/runtime_syspath/syspath_sleuth/syspath_sleuth.py:161-180 | true exactly when the user site is enabled, the module is `usercustomize.py` and the file exists; then it reports the shortened path |
| Sleuth.Channel.IsActiveInSystemSite | src/runtime_syspath/syspath_sleuth/syspath_sleuth.py:182-195 | true exactly when the module is `sitecustomize.py` and the system customize path exists; then it reports the shortened path |
| Sleuth.Channel.IsSleuthActive | src/runtime_syspath/syspath_sleuth/syspath_sleuth.py:44-60 | returns `SleuthActive`; the output gains the activation report |
| Sleuth.SysPathSleuth.constructor | src/runtime_syspath/syspath_sleuth/syspath_sleuth.py:200 | the traced list starts with the given entries |
| Sleuth.SysPathSleuth.Insert | src/runtime_syspath/syspath_sleuth/syspath_sleuth.py:16-18 | reports the call, then contents are what `list.insert` gives |
| Sleuth.SysPathSleuth.Append | src/runtime_syspath/syspath_sleuth/syspath_sleuth.py:20-22 | reports the call, then contents are what `list.append` gives |
| Sleuth.SysPathSleuth.Extend | src/runtime_syspath/syspath_sleuth/syspath_sleuth.py:24-26 | reports the call, then contents are what `list.extend` gives |
| Sleuth.SysPathSleuth.Pop | src/runtime_syspath/syspath_sleuth/syspath_sleuth.py:28-30 | reports the call; returns the popped entry and the plain list's contents, or the plain list's IndexError with contents unchanged |
| Sleuth.SysPathSleuth.Remove | src/runtime_syspath/syspath_sleuth/syspath_sleuth.py:32-34 | reports the call; the plain list's contents, or its ValueError with contents unchanged |
| Sleuth.SysPathSleuth.DelItem | src/runtime_syspath/syspath_sleuth/syspath_sleuth.py:36-38 | reports the call; the plain list's contents, or its IndexError with contents unchanged |
| Sleuth.SysPathSleuth.DelSlice | src/runtime_syspath/syspath_sleuth/syspath_sleuth.py:36-38 | reports the call, then contents are what `del s[a:b]` gives |
| Sleuth.SysPathSleuth.SetItem | src/runtime_syspath/syspath_sleuth/syspath_sleuth.py:40-42 | reports the call; the plain list's contents, or its IndexError with contents unchanged |
| Sleuth.SysPathSleuth.SetSlice | src/runtime_syspath/syspath_sleuth/syspath_sleuth.py:40-42 | reports the call, then contents are what `s[a:b] = xs` gives |
| Sleuth.SysPathSleuth.GetBaseList | src/runtime_syspath/syspath_sleuth/syspath_sleuth.py:79-80 | a plain list equal entry by entry to the contents, which do not change |
| LegacySleuth.Inform | src/syspath_sleuth/syspath_sleuth.py:83-88 | logged with the bare message exactly when logging is on and the level enabled; otherwise prints `<LEVELNAME>: <message>)` |
| LegacySleuth.WhereReport | src/syspath_sleuth/syspath_sleuth.py:56-69 | one message exactly when the frame resolves and logging is off or INFO enabled; the unshortened filename; printed with the `INFO: ` prefix and trailing `)` |
| LegacySleuth.ConfigReport | src/syspath_sleuth/syspath_sleuth.py:42-54 | at most one diagnostic, exactly when a handler is given whose level is NOTSET or below (never enabled, since `isEnabledFor` refuses levels at or below the default `logging.disable` threshold 0) or below the configured logger's effective level |
| LegacySleuth.ConfigDiagnosticsOpposite | src/syspath_sleuth/syspath_sleuth.py:48 | without a handler neither revision complains; for a handler whose level is set, exactly one complains when its level differs from the effective level and neither when they are equal; for a handler at NOTSET or below the older one always complains and the newer one exactly when the effective level is lower still |
| LegacySleuth.NotsetHandlerDiagnosed | src/syspath_sleuth/syspath_sleuth.py:47-54 | a NOTSET handler given to a never-set logger under NOTSET ancestors draws one printed diagnostic from the older revision and none from the newer |
| LegacySleuth.SleuthActive | src/syspath_sleuth/syspath_sleuth.py:90-97 | active exactly when installed in the user or the system site; no kill switch |
| LegacySleuth.ActivationReport | src/syspath_sleuth/syspath_sleuth.py:116-149 | one report exactly when active, at WARNING, naming the unshortened customize path: the user message with the user customize path, or the system message with the system one |
| LegacySleuth.Channel.constructor | src/syspath_sleuth/syspath_sleuth.py:11-12 | the class logger starts at NOTSET with no handlers |
| LegacySleuth.Channel.InformUser | src/syspath_sleuth/syspath_sleuth.py:83-88 | appends what `LegacySleuth.Inform` gives; the logger is unchanged |
| LegacySleuth.Channel.ConfigLogger | src/syspath_sleuth/syspath_sleuth.py:42-54 | the logger is configured as in the newer revision; the output gains the older diagnostic |
| LegacySleuth.Channel.Where | src/syspath_sleuth/syspath_sleuth.py:56-69 | the output gains `LegacySleuth.WhereReport` |
| LegacySleuth.Channel.IsActiveInUserSite | src/syspath_sleuth/syspath_sleuth.py:116-135 | the same test as the newer revision; the report is at WARNING with the full path |
| LegacySleuth.Channel.IsActiveInSystemSite | src/syspath_sleuth/syspath_sleuth.py:137-149 | the same test as the newer revision; the report is at WARNING with the full path |
| LegacySleuth.Channel.IsSleuthActive | src/syspath_sleuth/syspath_sleuth.py:90-97 | returns `LegacySleuth.SleuthActive`; the output gains the activation report |
| LegacySleuth.SysPathSleuth.constructor | src/syspath_sleuth/syspath_sleuth.py:154 | the traced list starts with the given entries |
| LegacySleuth.SysPathSleuth.Insert | src/syspath_sleuth/syspath_sleuth.py:14-16 | reports the call, then contents are what `list.insert` gives |
| LegacySleuth.SysPathSleuth.Append | src/syspath_sleuth/syspath_sleuth.py:18-20 | reports the call, then contents are what `list.append` gives |
| LegacySleuth.SysPathSleuth.Extend | src/syspath_sleuth/syspath_sleuth.py:22-24 | reports the call, then contents are what `list.extend` gives |
| LegacySleuth.SysPathSleuth.Pop | src/syspath_sleuth/syspath_sleuth.py:26-28 | reports the call; the popped entry and the plain list's contents, or its IndexError with contents unchanged |
| LegacySleuth.SysPathSleuth.Remove | src/syspath_sleuth/syspath_sleuth.py:30-32 | reports the call; the plain list's contents, or its ValueError with contents unchanged |
| LegacySleuth.SysPathSleuth.DelItem | src/syspath_sleuth/syspath_sleuth.py:34-36 | reports the call; the plain list's contents, or its IndexError with contents unchanged |
| LegacySleuth.SysPathSleuth.DelSlice | src/syspath_sleuth/syspath_sleuth.py:34-36 | reports the call, then contents are what `del s[a:b]` gives |
| LegacySleuth.SysPathSleuth.SetItem | src/syspath_sleuth/syspath_sleuth.py:38-40 | reports the call; the plain list's contents, or its IndexError with contents unchanged |
| LegacySleuth.SysPathSleuth.SetSlice | src/syspath_sleuth/syspath_sleuth.py:38-40 | reports the call, then contents are what `s[a:b] = xs` gives |
| ReversePatch.MakePatch | src/runtime_syspath/syspath_sleuth/__init__.py:76-80 | no hunks exactly when the two texts are equal; otherwise from the current text to the pre-image |
| ReversePatch.ApplyPatch | src/runtime_syspath/syspath_sleuth/__init__.py:110 | a patch without hunks leaves any text; one with hunks applies exactly to its source text and gives its target |
| ReversePatch.MakeThenApply | src/runtime_syspath/syspath_sleuth/__init__.py:76-110 | the patch from the installed content turns it back into the pre-image and refuses any other text |
| ReversePatch.EncodePatch | src/runtime_syspath/syspath_sleuth/__init__.py:82 | the patch text is empty exactly for a patch without hunks |
| ReversePatch.DecodeEncode | src/runtime_syspath/syspath_sleuth/__init__.py:82-104 | the patch text written reads back as the same patch |
| Installer.FirstNamedSitePackages | src/runtime_syspath/syspath_sleuth/__init__.py:151-153 | the first site directory whose text contains `site-packages`; none before it does |
| Installer.SystemCustomizePath | src/runtime_syspath/syspath_sleuth/__init__.py:149-154 | `sitecustomize.py` joined to the first site directory whose text contains `site-packages` (none before it does); InstallError "No system site found!" exactly when no entry qualifies |
| Installer.CustomizePath | src/runtime_syspath/syspath_sleuth/__init__.py:157-173 | the user customize path, with the user flag, exactly when the user site is enabled; otherwise the system customize path without the flag, or that lookup's error |
| Installer.GetRelativePath | src/runtime_syspath/syspath_sleuth/__init__.py:188-194 | relative to the working directory when it lies under it, unchanged otherwise |
| Installer.Touch | src/runtime_syspath/syspath_sleuth/__init__.py:56-58 | the customize file exists afterwards, its content unchanged if it had one and empty otherwise; the creating message is logged |
| Installer.Copy | src/runtime_syspath/syspath_sleuth/__init__.py:61-62 | the `.pre_sleuth` sibling equals the customize content; FileNotFoundError with nothing changed when the file is missing |
| Installer.Overwrite | src/runtime_syspath/syspath_sleuth/__init__.py:52-53 | the data is written from offset 0; a longer old content keeps its tail; on an empty file the result is the data |
| Installer.AppendSleuth | src/runtime_syspath/syspath_sleuth/__init__.py:38-53 | logs first; fails exactly when the custom source or the customize file is missing, changing no file; otherwise overwrites the customize file with the sleuth source |
| Installer.MakeReversePatch | src/runtime_syspath/syspath_sleuth/__init__.py:65-87 | creates `.patch` from the customize content back to the pre-image and removes `.pre_sleuth`; FileExistsError when `.patch` exists; nothing changes on failure |
| Installer.Reverse | src/runtime_syspath/syspath_sleuth/__init__.py:90-126 | no `.patch`: nothing changes; the removing message is logged and the log only grows; a patch that reads but does not apply: UninstallError naming the `.patch` file, with both files kept; otherwise non-empty content is written back or the emptied file removed, and `.patch` removed |
| Installer.IsInstallOnImport | src/runtime_syspath/syspath_sleuth/__init__.py:309-313 | true exactly when installing on import is requested and the sleuth's kill switch is off, so activation is then decided by the installation alone |
| Installer.KillVarDecides | src/runtime_syspath/syspath_sleuth/syspath_sleuth.py:50-60 | the kill switch is off for every installation exactly when the kill variable is unset; once it is set some installed sleuth reports inactive |
| Installer.InstallSteps | src/runtime_syspath/syspath_sleuth/__init__.py:208-211 | the log only grows, and its first new record is the creating message |
| Installer.Inject | src/runtime_syspath/syspath_sleuth/__init__.py:197-229 | a customize path error is returned with nothing changed; success only when the reload check finds the sleuth wrapping `sys.path`; the log only grows |
| Installer.Uninstall | src/runtime_syspath/syspath_sleuth/__init__.py:232-255 | a customize path error with nothing changed; a missing customize file changes no file and passes; a successful uninstall of an existing file leaves no `.patch`; the log only grows |
| Installer.Installer.constructor | src/runtime_syspath/syspath_sleuth/__init__.py:20-27 | the installer starts with the given files and an empty log |
| Installer.Installer.GetSystemCustomizePath | src/runtime_syspath/syspath_sleuth/__init__.py:149-154 | the scanning loop returns `Installer.SystemCustomizePath` |
| Installer.Installer.GetCustomizePath | src/runtime_syspath/syspath_sleuth/__init__.py:157-173 | returns `Installer.CustomizePath` |
| Installer.Installer.CreateSiteCustomize | src/runtime_syspath/syspath_sleuth/__init__.py:56-58 | the files and log become what `Touch` gives |
| Installer.Installer.CopySiteCustomize | src/runtime_syspath/syspath_sleuth/__init__.py:61-62 | the files, log and outcome are what `Copy` gives |
| Installer.Installer.AppendSleuthToCustomize | src/runtime_syspath/syspath_sleuth/__init__.py:38-53 | the files, log and outcome are what `AppendSleuth` gives |
| Installer.Installer.CreateReverseSleuthPatch | src/runtime_syspath/syspath_sleuth/__init__.py:65-87 | the files, log and outcome are what `MakeReversePatch` gives |
| Installer.Installer.ReversePatchSleuth | src/runtime_syspath/syspath_sleuth/__init__.py:90-126 | the files, log and outcome are what `Reverse` gives |
| Installer.Installer.InjectSleuth | src/runtime_syspath/syspath_sleuth/__init__.py:197-229 | the steps in order: reinstall warning and reversal, then touch, copy, append and patch; with a failed reload check, reversal and InstallError |
| Installer.Installer.UninstallSleuth | src/runtime_syspath/syspath_sleuth/__init__.py:232-255 | a missing customize file: the not-installed warning only; otherwise the reversal, then the uninstalled warning |
| InstallerProperties.InstallStepsClean | src/runtime_syspath/syspath_sleuth/__init__.py:208-211 | in a world with neither sibling, the four steps succeed: the customize file holds the sleuth over its old start, `.patch` leads back to the old content, `.pre_sleuth` is gone |
| InstallerProperties.InstallStepsPostcondition | src/runtime_syspath/syspath_sleuth/__init__.py:208-211 | whenever the four steps succeed, the customize file and `.patch` exist and `.pre_sleuth` does not; with the packaged sleuth the customize file starts with its source |
| InstallerProperties.ReverseInstalled | src/runtime_syspath/syspath_sleuth/__init__.py:90-126 | reversing such an installation restores every file, except that an empty customize file is removed |
| InstallerProperties.InjectClean | src/runtime_syspath/syspath_sleuth/__init__.py:197-211 | installing into such a world succeeds and leaves the customize file starting with the sleuth source (only the source if it was empty), `.patch` present, `.pre_sleuth` absent |
| InstallerProperties.InjectPostcondition | src/runtime_syspath/syspath_sleuth/__init__.py:197-229 | whatever the starting files, a successful installation leaves the customize file and `.patch`, and no `.pre_sleuth`; with the packaged sleuth the customize file starts with its source |
| InstallerProperties.InjectedIsDetected | src/runtime_syspath/syspath_sleuth/syspath_sleuth.py:162-194 | after a successful installation the sleuth's own test finds it: in the user site when that is enabled, and in the system site when both searches pick the same directory |
| InstallerProperties.InjectOverExisting | src/runtime_syspath/syspath_sleuth/__init__.py:201-211 | an existing customize file is first reversed under the reinstall warning, and the installation then proceeds from the restored files |
| InstallerProperties.InjectTwice | src/runtime_syspath/syspath_sleuth/__init__.py:197-211 | installing twice ends with the same files as installing once; the second run logs reinstalling, removing, creating, appending in that order |
| InstallerProperties.FailedVerificationRollsBack | src/runtime_syspath/syspath_sleuth/__init__.py:222-229 | when the reload check fails the installation is reversed before InstallError naming the customize file is raised |
| InstallerProperties.InjectThenUninstall | src/runtime_syspath/syspath_sleuth/__init__.py:232-255 | uninstalling right after installing restores the files exactly, except that a customize file that was empty (or absent) is not left behind |
| InstallerProperties.UninstallMissing | src/runtime_syspath/syspath_sleuth/__init__.py:239-246 | with no customize file, uninstalling changes no file and logs one not-installed warning |
| InstallerProperties.UninstallTwice | src/runtime_syspath/syspath_sleuth/__init__.py:232-255 | a second uninstall changes no file and logs exactly one warning |
| InstallerProperties.InstallerSearchNoLaterThanSleuth | src/runtime_syspath/syspath_sleuth/__init__.py:149-154 | the installer's substring search finds a directory no later than the sleuth's name test, so an installation the sleuth detects never meets "No system site found!" |
| StringOrder.SortDescending | src/runtime_syspath/syspath_utils.py:44 | `sorted(..., reverse=True)`: a descending permutation of its input |
| StringOrder.SortedPermutationUnique | src/runtime_syspath/syspath_utils.py:44 | a list has only one descending arrangement, so the result does not depend on the sorting algorithm |
| SyspathUtils.Keep | src/runtime_syspath/syspath_utils.py:40 | the comprehension keeps, in order, exactly the entries the pattern does not match, with their multiplicities |
| SyspathUtils.Filtered | src/runtime_syspath/syspath_utils.py:36-42 | unchanged without filtering or when neither filter is set; otherwise the order-preserving subsequence of entries matching neither the standard filter nor the caller's |
| SyspathUtils.FilteredSorted | src/runtime_syspath/syspath_utils.py:26-44 | `sys.path` itself when unsorted and either filtering is off or neither filter is set; otherwise the filtered entries, in order or descending |
| SyspathUtils.SortOnlyReorders | src/runtime_syspath/syspath_utils.py:44 | the sorted result is the descending arrangement of the unsorted one |
| SyspathUtils.Header | src/runtime_syspath/syspath_utils.py:58 | the header line is `sys.path(<n> paths):` after a newline, with `<n>` the shortest decimal numeral of the number of entries shown (no leading zero) |
| SyspathUtils.PrintPaths | src/runtime_syspath/syspath_utils.py:57-61 | the header, then one tab-indented line per entry, in order |
| SyspathUtils.StdFilter.constructor | src/runtime_syspath/syspath_utils.py:9 | no standard filter at first |
| SyspathUtils.StdFilter.InitStdSyspathFilter | src/runtime_syspath/syspath_utils.py:12-23 | sets the standard filter every later call uses; None disables it |
| SyspathUtils.StdFilter.FilteredSortedSyspath | src/runtime_syspath/syspath_utils.py:26-44 | `FilteredSorted` with the current standard filter |
| SyspathUtils.StdFilter.PrintSyspath | src/runtime_syspath/syspath_utils.py:47-61 | the header with the count, then one line per entry of `FilteredSorted` |
| SyspathUtils.AddMissingAppendsNew | src/runtime_syspath/syspath_utils.py:98-101 | earlier entries stay in place; only directories not yet present are appended, each once |
| SyspathUtils.SearchPath.constructor | src/runtime_syspath/syspath_utils.py:92 | the search path holds the given entries |
| SyspathUtils.SearchPath.AddSrcdirs | src/runtime_syspath/syspath_utils.py:92-106 | the loop's new search path, no duplicate introduced, and the reported difference is exactly the set of new directories |
| SyspathUtils.PackageAndMaxRelativeImportDots | src/runtime_syspath/syspath_utils.py:109-127 | KeyError exactly for a module not in `sys.modules`; otherwise its `__package__` and a string of dots |
| SyspathUtils.MaxDotsIsDeepestImport | src/runtime_syspath/syspath_utils.py:123-127 | a relative import of a given level resolves in the package exactly when the level is at most the number of dots returned |
| SyspathUtils.DotsExamples | src/runtime_syspath/syspath_utils.py:123-127 | no package gives "", `pkg` gives ".", `pkg.sub` gives "..", an unknown module KeyError |
| PrintSortedSyspath.StdFilter.constructor | src/runtime_syspath/print_sorted_syspath.py:6 | this module's own standard filter is unset at first |
| PrintSortedSyspath.StdFilter.InitStdSyspathFilter | src/runtime_syspath/print_sorted_syspath.py:9-20 | sets this module's standard filter, independent of the other module's |
| PrintSortedSyspath.StdFilter.FilteredSortedSyspath | src/runtime_syspath/print_sorted_syspath.py:23-42 | unchanged without filtering or sorting; the filtered entries, in order or descending |
| PrintSortedSyspath.StdFilter.PrintSyspath | src/runtime_syspath/print_sorted_syspath.py:45-57 | the header with the count, then exactly one line per entry, in order |

## Left out

- **Stack introspection.** `inspect.currentframe().f_back.f_back` and `getframeinfo` are replaced by the caller's frame as a parameter, None when it does not resolve. The frame's file name is taken as an already-parsed path.
- **Logging internals:**
  - The parent-logger chain becomes one inherited level.
  - `logging.disable` is at its default threshold 0, so `isEnabledFor` refuses every level at or below NOTSET; calling `logging.disable` is not modelled. Also not modelled: `logger.disabled`, propagation, record filtering and formatting by handlers, and level names registered with `addLevelName`.
  - A handler is a value, so `addHandler`'s identity test is equality of the value.
  - `Logged` means `logger.log` was called.
- Installer.Inject: the log records every logging call as made, before level filtering. The `sleuth_logger.setLevel(logging.ERROR)` before the rollback (`__init__.py:226`) is not modelled, so the rollback's "Removing" record appears even though the real logger would drop it.
- PyRepr.StrRepr: `repr` of a string is rendered as the string in single quotes. The escaping of quotes, backslashes and control characters, and the switch to double quotes, are not modelled.
- **Mutator arguments.** Only the argument shapes the path list is used with are modelled: indices, strings, lists of strings and slices with step None. Extended slices and the TypeErrors for wrong argument types are not.
- Sleuth.WhereReport: shortens the frame's file name with the guarded walk of `relative_path`. As written, `_where`'s walk (`syspath_sleuth.py:113-120`) never ends for a relative file name such as `<stdin>`: the mutation would hang there and never happen. The model emits the report with the name unchanged and performs the mutation (see Findings).
- Sleuth.Channel.Where: the same difference as `Sleuth.WhereReport`. Its loop is the guarded walk, so for a relative file name it reports and returns where the source never leaves its loop.
- **Default arguments.** In both `syspath_utils.py` and `print_sorted_syspath.py`, `filtered_sorted_syspath` and `print_syspath` default to `path_filter=None` and `no_filtering=False`. The first defaults to `sort=False`, the second to `sort=True`. The model takes every argument explicitly, so these defaults are not modelled.
- **Errors across a series of calls.** Trace stops at the first error a call raises. A caller that catches the error and goes on is not modelled.
- **`diff_match_patch` is abstract** (see above). The patch text is this model's own encoding, and fuzzy matching is not modelled.
- **The reload check.** The `importlib` reload of the customize module and the `isinstance` test in `inject_sleuth` become the boolean parameter `wraps`.
- **The import after reversal.** The `import sitecustomize` at the end of `reverse_patch_sleuth` changes no file and is not modelled.
- **Directories** are not part of the installer's file system. Not modelled: the `mkdir(parents=True)` of the user site directory, and the errors from missing parent directories. `is_dir()` is a set of directories in `Site`.
- Installer.Overwrite: counts characters, not encoded bytes. For content that is not ASCII, the byte offsets of `"r+"` writes can differ.
- **Reading source lines.** `readlines` and `inspect.getsourcelines` become one string.
- Installer.InstallSteps (and the other step functions): require the customize path to name a file, which `get_customize_path` always ensures.
- **The command lines** are not modelled: `syspath_sleuth_main` (click), the `__main__` modules and `--verbose`.
- **Import-time side effects** are not modelled: the `sys.path` replacement at the end of both sleuth modules, install-on-import, and the `atexit` uninstall (`__init__.py:316-321`). Only `is_install_on_import`'s decision is modelled.
- `src/syspath_sleuth/__init__.py` is not part of this model. Its install logic is mostly stubs.
- **The rest of `add_srcdirs_to_syspath`:**
  - The `src` root search (`syspath_utils.py:79-90`) and its RuntimeError are not modelled. Neither are the globs, whose results are the `found` input.
  - The printed "Added to sys.path" message (`syspath_utils.py:104-106`, sorted and `as_posix`) is replaced by returning the set it prints.
  - `add_srcdirs_to_syspath.py`, `src/add_srcdirs_to_syspath.py` and `syspath_path_utils.py` are not part of this model.
- **`sys.modules`** is a map from module name to `__package__`. A module object without that attribute is not modelled.
- **Regular expressions** are predicates on strings; `re.search` is not modelled.
- **`filtered_sorted_syspath` aliasing.** Without sorting, it returns the `sys.path` object itself when `no_filtering` is set, and also when filtering is on but neither the standard filter nor `path_filter` is set, since `paths` is never rebound then. The model returns its value in both cases. Printing returns the lines instead of writing them to standard output.
- **Paths** are component sequences. Parsing a string into components, `..` and symbolic links are not modelled. `sys.base_prefix` and the working directory are given as absolute component lists.
- **Duplicated code.** `print_syspath` in `syspath_utils.py` and in `print_sorted_syspath.py` are the same code over different standard filters, so both use `SyspathUtils.PrintPaths`. The older sleuth's user and system site tests are the newer ones without the shortening, so they reuse `Sleuth.ActiveInUserSite`, `Sleuth.ActiveInSystemSite` and `Sleuth.GetSystemCustomizePath`.
- **The older sleuth's file name.** The model's message shows `str()` of the parsed path. The source shows the raw `frame_info.filename` string, and the two can differ, for example in repeated slashes.

## Findings

| source | as written | input that shows it | evidently intended | confidence | as-written member | corrected member |
|---|---|---|---|---|---|---|
| src/runtime_syspath/syspath_sleuth/syspath_sleuth.py:113-120 | the working-directory walk in `_where` climbs `cwd.parent` until `relative_to` succeeds, with no stop at "/" (whose parent is itself) | a mutation called from code whose frame filename is not an absolute path under "/", such as `sys.path.append("x")` typed at the interactive prompt (filename `<stdin>`) or run through `exec` (`<string>`), with logging off or INFO enabled: no directory leads the relative name, so the loop never ends | stop at "/" and keep the file name unchanged, as `relative_path` (lines 62-77) does | not executed | Sleuth.WhereWalkNeverEndsOnRelative | Sleuth.RelativePath |

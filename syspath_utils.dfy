/** `runtime_syspath.syspath_utils`: filtering and sorting the search path
    for display, adding discovered `src` directories to it without
    duplicates, and the relative-import depth of an imported module.

    A compiled regular expression is modelled by what `re.search` tells
    about it, a predicate on strings; a compiled pattern object is always
    truthy, so `if pattern:` only tells a pattern from None. */
module SyspathUtils {
  import opened Wrappers
  import opened StringOrder
  import Decimal
  import PyPath

  type Pattern = string -> bool

  // ---------------------------------------------------------------------
  // Filtering and sorting
  // ---------------------------------------------------------------------

  /** `a` is `b` with some entries left out, the rest in their order. */
  predicate IsSubsequence(a: seq<string>, b: seq<string>)
    decreases |b|
  {
    |a| == 0 || (|b| > 0 && ((a[0] == b[0] && IsSubsequence(a[1..], b[1..])) || IsSubsequence(a, b[1..])))
  }

  lemma {:induction false} SubsequenceTransitive(a: seq<string>, b: seq<string>, c: seq<string>)
    requires IsSubsequence(a, b) && IsSubsequence(b, c)
    ensures IsSubsequence(a, c)
    decreases |c|
  {
    if |a| > 0 {
      if b[0] == c[0] && IsSubsequence(b[1..], c[1..]) {
        if a[0] == b[0] && IsSubsequence(a[1..], b[1..]) {
          SubsequenceTransitive(a[1..], b[1..], c[1..]);
        } else {
          SubsequenceTransitive(a, b[1..], c[1..]);
        }
      } else {
        SubsequenceTransitive(a, b, c[1..]);
      }
    }
  }

  lemma {:induction false} SubsequenceReflexive(a: seq<string>)
    ensures IsSubsequence(a, a)
    decreases |a|
  {
    if |a| > 0 {
      SubsequenceReflexive(a[1..]);
    }
  }

  /** `[path for path in paths if not re.search(pattern, path)]` */
  function Keep(paths: seq<string>, pattern: Pattern): (r: seq<string>)
    ensures IsSubsequence(r, paths)
    ensures forall x :: multiset(r)[x] == if pattern(x) then 0 else multiset(paths)[x]
  {
    if |paths| == 0 then []
    else
      var rest := Keep(paths[1..], pattern);
      assert paths == [paths[0]] + paths[1..];
      if pattern(paths[0]) then rest
      else
        assert ([paths[0]] + rest)[1..] == rest;
        [paths[0]] + rest
  }

  /** The comprehension applied when a pattern is set, nothing otherwise. */
  function KeepUnless(paths: seq<string>, pattern: Option<Pattern>): (r: seq<string>)
    ensures IsSubsequence(r, paths)
    ensures forall x :: multiset(r)[x] == if pattern.Some? && pattern.value(x) then 0 else multiset(paths)[x]
  {
    match pattern
    case None => SubsequenceReflexive(paths); paths
    case Some(p) => Keep(paths, p)
  }

  /** An entry that filtering drops: filtering is on and the standard
      filter or the caller's filter finds a match in it. */
  predicate Dropped(x: string, std: Option<Pattern>, pathFilter: Option<Pattern>, noFiltering: bool) {
    !noFiltering && ((std.Some? && std.value(x)) || (pathFilter.Some? && pathFilter.value(x)))
  }

  /** `filtered_sorted_syspath`, given `sys.path` and the standard filter. */
  function FilteredSorted(sysPath: seq<string>, std: Option<Pattern>, pathFilter: Option<Pattern>,
                          noFiltering: bool, sort: bool): (r: seq<string>)
    ensures (noFiltering || (std.None? && pathFilter.None?)) && !sort ==> r == sysPath
    ensures !sort ==> IsSubsequence(r, sysPath)
    ensures sort ==> SortedDescending(r)
    ensures forall x :: multiset(r)[x] == if Dropped(x, std, pathFilter, noFiltering) then 0 else multiset(sysPath)[x]
  {
    var paths := Filtered(sysPath, std, pathFilter, noFiltering);
    if sort then SortDescending(paths) else paths
  }

  /** The filtering half of `filtered_sorted_syspath`. */
  function Filtered(sysPath: seq<string>, std: Option<Pattern>, pathFilter: Option<Pattern>, noFiltering: bool)
    : (r: seq<string>)
    ensures noFiltering || (std.None? && pathFilter.None?) ==> r == sysPath
    ensures IsSubsequence(r, sysPath)
    ensures forall x :: multiset(r)[x] == if Dropped(x, std, pathFilter, noFiltering) then 0 else multiset(sysPath)[x]
  {
    SubsequenceReflexive(sysPath);
    if noFiltering then sysPath
    else
      var once := KeepUnless(sysPath, std);
      var twice := KeepUnless(once, pathFilter);
      SubsequenceTransitive(twice, once, sysPath);
      twice
  }

  /** Sorting does not change which entries are shown, only their order:
      the sorted result is the descending arrangement of the unsorted one. */
  lemma SortOnlyReorders(sysPath: seq<string>, std: Option<Pattern>, pathFilter: Option<Pattern>, noFiltering: bool)
    ensures FilteredSorted(sysPath, std, pathFilter, noFiltering, true) ==
            SortDescending(FilteredSorted(sysPath, std, pathFilter, noFiltering, false))
  {
    var sorted := FilteredSorted(sysPath, std, pathFilter, noFiltering, true);
    var plain := FilteredSorted(sysPath, std, pathFilter, noFiltering, false);
    assert multiset(sorted) == multiset(plain);
    SortedPermutationUnique(sorted, SortDescending(plain));
  }

  // ---------------------------------------------------------------------
  // Printing
  // ---------------------------------------------------------------------

  /** The header `print_syspath` prints before the entries. */
  function Header(count: nat): (h: string)
    ensures |h| > 18
    ensures h[..10] == "\nsys.path(" && h[|h| - 8..] == " paths):"
    ensures var digits := h[10..|h| - 8]; Decimal.AllDigits(digits) && Decimal.DigitsValue(digits) == count
    ensures |h[10..|h| - 8]| > 1 ==> h[10] != '0'
  {
    var digits := Decimal.NatToString(count);
    Decimal.NatToStringRoundTrip(count);
    var h := "\nsys.path(" + digits + " paths):";
    assert h[10..|h| - 8] == digits;
    h
  }

  /** The body of `print_syspath`: the arguments of its `print` calls. */
  method PrintPaths(paths: seq<string>) returns (lines: seq<string>)
    ensures |lines| == |paths| + 1 && lines[0] == Header(|paths|)
    ensures forall i :: 0 <= i < |paths| ==> lines[i + 1] == "\t" + paths[i]
  {
    lines := [Header(|paths|)];
    for i := 0 to |paths|
      invariant |lines| == i + 1 && lines[0] == Header(|paths|)
      invariant forall k :: 0 <= k < i ==> lines[k + 1] == "\t" + paths[k]
    {
      lines := lines + ["\t" + paths[i]];
    }
  }

  // ---------------------------------------------------------------------
  // The module's standard filter
  // ---------------------------------------------------------------------

  /** The module-global `_STD_SYSPATH_FILTER`. */
  class StdFilter {
    var pattern: Option<Pattern>

    constructor()
      ensures pattern == None
    {
      pattern := None;
    }

    /** `init_std_syspath_filter`: every later call uses the new pattern. */
    method InitStdSyspathFilter(std: Option<Pattern>)
      modifies this
      ensures pattern == std
    {
      pattern := std;
    }

    /** `filtered_sorted_syspath` */
    method FilteredSortedSyspath(sysPath: seq<string>, pathFilter: Option<Pattern>, noFiltering: bool, sort: bool)
      returns (r: seq<string>)
      ensures r == FilteredSorted(sysPath, pattern, pathFilter, noFiltering, sort)
    {
      r := FilteredSorted(sysPath, pattern, pathFilter, noFiltering, sort);
    }

    /** `print_syspath`: the header, then one line per entry shown. */
    method PrintSyspath(sysPath: seq<string>, pathFilter: Option<Pattern>, noFiltering: bool, sort: bool)
      returns (lines: seq<string>)
      ensures var paths := FilteredSorted(sysPath, pattern, pathFilter, noFiltering, sort);
        |lines| == |paths| + 1 && lines[0] == Header(|paths|) &&
        forall i :: 0 <= i < |paths| ==> lines[i + 1] == "\t" + paths[i]
    {
      var paths := FilteredSortedSyspath(sysPath, pathFilter, noFiltering, sort);
      lines := PrintPaths(paths);
    }
  }

  // ---------------------------------------------------------------------
  // Adding `src` directories
  // ---------------------------------------------------------------------

  /** A path the two globs produced, as `str(path)`, and whether it is a
      directory when the loop reaches it. */
  datatype Candidate = Candidate(path: string, isDir: bool)

  /** The search path after the loop of `add_srcdirs_to_syspath` has seen
      `found`, in the order the globs produced them. */
  function AddMissing(entries: seq<string>, found: seq<Candidate>): seq<string>
    decreases |found|
  {
    if |found| == 0 then entries
    else
      var before := AddMissing(entries, found[..|found| - 1]);
      var c := found[|found| - 1];
      if c.isDir && c.path !in before then before + [c.path] else before
  }

  /** A directory that was found and was not on the search path before. */
  predicate NewlyFound(x: string, entries: seq<string>, found: seq<Candidate>) {
    x !in entries && exists k :: 0 <= k < |found| && found[k].isDir && found[k].path == x
  }

  /** An entry of `s` that is not among its first `n` is in the rest. */
  lemma InTail(s: seq<string>, n: nat, x: string)
    requires n <= |s|
    ensures x in s[n..] ==> x in s
    ensures x in s && x !in s[..n] ==> x in s[n..]
  {
    assert s == s[..n] + s[n..];
  }

  /** The loop keeps the earlier entries in place, appends each directory
      that was new at most once, and appends nothing else. */
  lemma {:induction false} AddMissingAppendsNew(entries: seq<string>, found: seq<Candidate>)
    ensures var r := AddMissing(entries, found);
      |entries| <= |r| && r[..|entries|] == entries &&
      (forall i, j :: |entries| <= i < j < |r| ==> r[i] != r[j]) &&
      (forall x :: x in r[|entries|..] <==> NewlyFound(x, entries, found))
    decreases |found|
  {
    if |found| > 0 {
      var n := |entries|;
      var init := found[..|found| - 1];
      AddMissingAppendsNew(entries, init);
      var before := AddMissing(entries, init);
      var c := found[|found| - 1];
      var added := c.isDir && c.path !in before;
      var r := AddMissing(entries, found);
      assert r == if added then before + [c.path] else before;
      assert r[..n] == entries;
      assert r[n..] == if added then before[n..] + [c.path] else before[n..];
      forall x
        ensures x in r[n..] <==> NewlyFound(x, entries, found)
      {
        InTail(before, n, x);
        if NewlyFound(x, entries, found) {
          var k :| 0 <= k < |found| && found[k].isDir && found[k].path == x;
          if k < |init| {
            assert init[k] == found[k];
            assert NewlyFound(x, entries, init);
          }
        }
        if x in before[n..] {
          var k :| 0 <= k < |init| && init[k].isDir && init[k].path == x;
          assert found[k] == init[k];
        } else if added && x == c.path {
          assert x !in entries;
          assert found[|found| - 1] == c;
        }
      }
      if added {
        forall i | n <= i < |before| ensures before[i] != c.path {
          assert before[i] in before;
        }
      }
    }
  }

  /** `set(prior).symmetric_difference(set(now))` */
  function SymmetricDifference(prior: seq<string>, now: seq<string>): set<string> {
    (set x | x in prior && x !in now) + (set x | x in now && x !in prior)
  }

  /** The mutable `sys.path` list that `add_srcdirs_to_syspath` appends to. */
  class SearchPath {
    var entries: seq<string>

    constructor(initial: seq<string>)
      ensures entries == initial
    {
      entries := initial;
    }

    /** The loop of `add_srcdirs_to_syspath` over the globbed candidates.
        Returns the set of paths it reports as added. */
    method AddSrcdirs(found: seq<Candidate>) returns (added: set<string>)
      modifies this
      ensures entries == AddMissing(old(entries), found)
      ensures |old(entries)| <= |entries| && entries[..|old(entries)|] == old(entries)
      ensures forall i, j :: |old(entries)| <= i < j < |entries| ==> entries[i] != entries[j]
      ensures forall x :: x in added <==> NewlyFound(x, old(entries), found)
    {
      var prior := entries;
      for i := 0 to |found|
        invariant entries == AddMissing(prior, found[..i])
      {
        var c := found[i];
        assert found[..i + 1][..i] == found[..i];
        if c.isDir && c.path !in entries {
          entries := entries + [c.path];
        }
      }
      assert found[..|found|] == found;
      added := SymmetricDifference(prior, entries);
      AddMissingAppendsNew(prior, found);
      forall x ensures x in added <==> x in entries[|prior|..] {
        if x in entries && x !in prior {
          var k :| 0 <= k < |entries| && entries[k] == x;
          assert forall j :: 0 <= j < |prior| ==> entries[j] == prior[j];
          assert k >= |prior|;
          assert entries[|prior|..][k - |prior|] == x;
        }
        if x in entries[|prior|..] {
          assert x in entries;
        }
        if x in prior {
          assert x in entries[..|prior|];
          assert x in entries;
        }
      }
    }
  }

  // ---------------------------------------------------------------------
  // Relative-import depth
  // ---------------------------------------------------------------------

  datatype LookupError = KeyError(key: string)

  /** `s.count(c)` */
  function Count(s: string, c: char): (n: nat)
    ensures n <= |s|
    decreases |s|
  {
    if |s| == 0 then 0 else Count(s[..|s| - 1], c) + (if s[|s| - 1] == c then 1 else 0)
  }

  /** `"." * n`, as the source builds it with `join`. */
  function Dots(n: nat): (d: string)
    ensures |d| == n && forall i :: 0 <= i < n ==> d[i] == '.'
  {
    if n == 0 then "" else Dots(n - 1) + "."
  }

  /** `get_package_and_max_relative_import_dots`, given `sys.modules` as a
      map from module name to its `__package__`. */
  function PackageAndMaxRelativeImportDots(modules: map<string, Option<string>>, moduleName: string)
    : (r: Result<(Option<string>, string), LookupError>)
    ensures moduleName !in modules ==> r == Failure(KeyError(moduleName))
    ensures moduleName in modules ==> r.Success? && r.value.0 == modules[moduleName]
    ensures r.Success? ==> forall i :: 0 <= i < |r.value.1| ==> r.value.1[i] == '.'
  {
    if moduleName !in modules then Failure(KeyError(moduleName))
    else
      var package := modules[moduleName];
      var truthy := package.Some? && package.value != "";
      var dots := if truthy then "." else "";
      var dotCount := if truthy then Count(package.value, '.') else 0;
      Success((package, dots + Dots(dotCount)))
  }

  /** `package.rsplit('.', n)` keeping only the head: the package with its
      last `n` components removed, None when it has fewer than `n + 1`. */
  function DropComponents(package: string, n: nat): Option<string>
    decreases n
  {
    if n == 0 then Some(package)
    else
      match PyPath.LastIndexOf(package, '.')
      case None => None
      case Some(i) => DropComponents(package[..i], n - 1)
  }

  lemma {:induction false} CountSplit(s: string, i: nat, c: char)
    requires i <= |s|
    ensures Count(s, c) == Count(s[..i], c) + Count(s[i..], c)
    decreases |s|
  {
    if i < |s| {
      CountSplit(s[..|s| - 1], i, c);
      assert s[..|s| - 1][..i] == s[..i];
      assert s[i..][..|s[i..]| - 1] == s[..|s| - 1][i..];
    } else {
      assert s[..i] == s;
    }
  }

  lemma {:induction false} CountAbsent(s: string, c: char)
    requires forall j :: 0 <= j < |s| ==> s[j] != c
    ensures Count(s, c) == 0
    decreases |s|
  {
    if |s| > 0 {
      CountAbsent(s[..|s| - 1], c);
    }
  }

  /** Removing `n` trailing components works exactly when the package has
      at least `n` dots. */
  lemma {:induction false} DropComponentsWorks(package: string, n: nat)
    ensures DropComponents(package, n).Some? <==> n <= Count(package, '.')
    decreases n
  {
    if n > 0 {
      match PyPath.LastIndexOf(package, '.')
      case None =>
        CountAbsent(package, '.');
      case Some(i) =>
        CountSplit(package, i, '.');
        var tail := package[i..];
        assert tail == ['.'] + tail[1..];
        CountSplit(tail, 1, '.');
        assert tail[..1] == ['.'];
        assert Count(tail[..1][..0], '.') == 0;
        CountAbsent(tail[1..], '.');
        DropComponentsWorks(package[..i], n - 1);
    }
  }

  /** The returned dots are the deepest relative import the module can
      make: `from <level dots> import name` in that package resolves
      (Python strips `level - 1` trailing components from the package and
      refuses a relative import from no package) exactly when `level` is at
      most the number of dots returned. */
  lemma MaxDotsIsDeepestImport(modules: map<string, Option<string>>, moduleName: string, level: nat)
    requires moduleName in modules
    requires level >= 1
    ensures var (package, dots) := PackageAndMaxRelativeImportDots(modules, moduleName).value;
      (package.Some? && package.value != "" && DropComponents(package.value, level - 1).Some?) <==> level <= |dots|
  {
    var package := modules[moduleName];
    if package.Some? && package.value != "" {
      DropComponentsWorks(package.value, level - 1);
    }
  }

  /** The dot counts of the example packages. */
  lemma ExampleDotCounts()
    ensures Count("pkg", '.') == 0 && Count("pkg.sub", '.') == 1
  {
    CountAbsent("pkg", '.');
    CountSplit("pkg.sub", 3, '.');
    assert "pkg.sub"[..3] == "pkg" && "pkg.sub"[3..] == "." + "sub";
    CountSplit(".sub", 1, '.');
    assert ".sub"[..1] == "." && ".sub"[1..] == "sub";
    CountAbsent("sub", '.');
    assert "."[..0] == "";
  }

  /** The cases in the module's tests: no package, a top-level package and
      a package one level down. */
  lemma DotsExamples(modules: map<string, Option<string>>)
    requires modules == map["main" := None, "pkg.mod" := Some("pkg"), "pkg.sub.mod" := Some("pkg.sub")]
    ensures PackageAndMaxRelativeImportDots(modules, "main") == Success((None, ""))
    ensures PackageAndMaxRelativeImportDots(modules, "pkg.mod") == Success((Some("pkg"), "."))
    ensures PackageAndMaxRelativeImportDots(modules, "pkg.sub.mod") == Success((Some("pkg.sub"), ".."))
    ensures PackageAndMaxRelativeImportDots(modules, "absent") == Failure(KeyError("absent"))
  {
    ExampleDotCounts();
    assert Dots(0) == "" && Dots(1) == ".";
    assert "." + Dots(0) == "." && "." + Dots(1) == "..";
    assert "absent" !in modules by {
      assert "absent"[0] != "main"[0] && "absent"[0] != "pkg.mod"[0] && "absent"[0] != "pkg.sub.mod"[0];
    }
    assert modules["main"] == None;
    assert PackageAndMaxRelativeImportDots(modules, "main").value.1 == "";
    assert modules["pkg.mod"] == Some("pkg");
    assert modules["pkg.sub.mod"] == Some("pkg.sub");
  }
}

/** POSIX paths as `pathlib.PurePosixPath` sees them: an optional root and a
    sequence of components. Only the operations the site-customize machinery
    uses are modelled: `/`, `.name`, `.parent`, `.suffix`, `.with_suffix`,
    `.relative_to` and `str()`. */
module PyPath {
  import opened Wrappers

  /** `absolute` is true when the path starts at "/"; `parts` are the
      components after the root, none of them empty or ".". */
  datatype Path = Path(absolute: bool, parts: seq<string>)

  /** The absolute path with the given components. */
  function Absolute(parts: seq<string>): Path {
    Path(true, parts)
  }

  predicate IsPrefix<T(==)>(a: seq<T>, b: seq<T>) {
    |a| <= |b| && b[..|a|] == a
  }

  /** `dir / name` */
  function Join(dir: Path, name: string): (r: Path)
    ensures r.absolute == dir.absolute && r.parts == dir.parts + [name]
  {
    Path(dir.absolute, dir.parts + [name])
  }

  /** `p.name`: the last component, or "" for the root and for ".". */
  function Name(p: Path): string {
    if |p.parts| == 0 then "" else p.parts[|p.parts| - 1]
  }

  /** `p.relative_to(base)`: defined exactly when `base` is a leading part
      of `p` (with the same anchoring); otherwise Python raises ValueError. */
  function RelativeTo(p: Path, base: Path): (r: Option<Path>)
    ensures r.Some? <==> p.absolute == base.absolute && IsPrefix(base.parts, p.parts)
    ensures r.Some? ==> !r.value.absolute && base.parts + r.value.parts == p.parts
  {
    if p.absolute == base.absolute && IsPrefix(base.parts, p.parts) then
      assert base.parts + p.parts[|base.parts|..] == p.parts by {
        assert p.parts == p.parts[..|base.parts|] + p.parts[|base.parts|..];
      }
      Some(Path(false, p.parts[|base.parts|..]))
    else
      None
  }

  /** The strings of `parts` separated by `sep`. */
  function JoinStrings(parts: seq<string>, sep: string): string
    decreases |parts|
  {
    if |parts| == 0 then ""
    else if |parts| == 1 then parts[0]
    else JoinStrings(parts[..|parts| - 1], sep) + sep + parts[|parts| - 1]
  }

  /** `str(p)`: "/" for the root, "." for the empty relative path. */
  function ToString(p: Path): string {
    if p.absolute then "/" + JoinStrings(p.parts, "/")
    else if |p.parts| == 0 then "."
    else JoinStrings(p.parts, "/")
  }

  /** Python's `sub in s` for strings. */
  predicate Contains(s: string, sub: string)
    decreases |s|
  {
    IsPrefix(sub, s) || (|s| > 0 && Contains(s[1..], sub))
  }

  lemma {:induction false} ContainsSuffix(prefix: string, sub: string)
    ensures Contains(prefix + sub, sub)
    decreases |prefix|
  {
    if |prefix| > 0 {
      assert (prefix + sub)[1..] == prefix[1..] + sub;
      ContainsSuffix(prefix[1..], sub);
    }
  }

  /** The rendering of the front of `p` that its name follows in `str(p)`. */
  function Head(p: Path): string
    requires |p.parts| > 0
  {
    var n := |p.parts|;
    var front := if n == 1 then "" else JoinStrings(p.parts[..n - 1], "/") + "/";
    if p.absolute then "/" + front else front
  }

  lemma ToStringEndsWithName(p: Path)
    requires |p.parts| > 0
    ensures ToString(p) == Head(p) + Name(p)
  {
    var n := |p.parts|;
    if n > 1 {
      assert JoinStrings(p.parts, "/") == JoinStrings(p.parts[..n - 1], "/") + "/" + Name(p);
    }
  }

  /** A path renders to a string that holds its name (`p.name in str(p)`). */
  lemma NameInToString(p: Path)
    requires |p.parts| > 0
    ensures Contains(ToString(p), Name(p))
  {
    ToStringEndsWithName(p);
    ContainsSuffix(Head(p), Name(p));
  }

  /** The position of the last `c` in `s`, as `str.rfind` (None for -1). */
  function LastIndexOf(s: string, c: char): (r: Option<nat>)
    ensures r.Some? ==> r.value < |s| && s[r.value] == c
    ensures r.Some? ==> forall j :: r.value < j < |s| ==> s[j] != c
    ensures r.None? ==> forall j :: 0 <= j < |s| ==> s[j] != c
    decreases |s|
  {
    if |s| == 0 then None
    else if s[|s| - 1] == c then Some(|s| - 1)
    else LastIndexOf(s[..|s| - 1], c)
  }

  /** Where `PurePath.suffix` starts: the last dot, unless it is the first or
      the last character of the name. */
  function SuffixStart(name: string): (r: Option<nat>)
    ensures r.Some? ==> 0 < r.value < |name| - 1 && name[r.value] == '.'
  {
    match LastIndexOf(name, '.')
    case Some(i) => if 0 < i < |name| - 1 then Some(i) else None
    case None => None
  }

  /** `PurePath.suffix` of a path named `name`. */
  function Suffix(name: string): string {
    match SuffixStart(name)
    case Some(i) => name[i..]
    case None => ""
  }

  /** `PurePath.stem` of a path named `name`. */
  function Stem(name: string): string {
    match SuffixStart(name)
    case Some(i) => name[..i]
    case None => name
  }

  lemma StemAndSuffix(name: string)
    ensures Stem(name) + Suffix(name) == name
  {
    match SuffixStart(name)
    case Some(i) => assert name == name[..i] + name[i..];
    case None =>
  }

  /** `p.with_suffix(suffix)`; Python refuses a path with an empty name. */
  function WithSuffix(p: Path, suffix: string): (r: Path)
    requires Name(p) != ""
    ensures r.absolute == p.absolute && |r.parts| == |p.parts|
    ensures r.parts[..|r.parts| - 1] == p.parts[..|p.parts| - 1]
    ensures Name(r) == Stem(Name(p)) + suffix
  {
    Path(p.absolute, p.parts[..|p.parts| - 1] + [Stem(Name(p)) + suffix])
  }

  /** Two different suffixes give two different sibling paths, and a suffix
      other than the current one gives a path other than `p`. */
  lemma WithSuffixDistinct(p: Path, a: string, b: string)
    requires Name(p) != ""
    ensures a != b ==> WithSuffix(p, a) != WithSuffix(p, b)
    ensures a != Suffix(Name(p)) ==> WithSuffix(p, a) != p
  {
    var stem := Stem(Name(p));
    assert (stem + a)[|stem|..] == a;
    assert (stem + b)[|stem|..] == b;
    if a != b {
      assert Name(WithSuffix(p, a)) != Name(WithSuffix(p, b));
    }
    StemAndSuffix(Name(p));
    var current := Suffix(Name(p));
    assert (stem + current)[|stem|..] == current;
    if a != current {
      assert Name(WithSuffix(p, a)) != Name(p);
    }
  }
}

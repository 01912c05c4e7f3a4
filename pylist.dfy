/** The plain Python `list` operations that the sleuth's mutators delegate to,
    on a list of path strings: index adjustment for negative and out-of-range
    positions, the errors Python raises, and the value each call returns. This
    is the reference the traced list is proved against. */
module PyList {
  import opened Wrappers
  import opened PyRepr

  datatype ListError = IndexError(msg: string) | ValueError(msg: string)

  const POP_EMPTY := "pop from empty list"
  const POP_RANGE := "pop index out of range"
  const DEL_RANGE := "list assignment index out of range"
  const SET_RANGE := "list assignment index out of range"
  const REMOVE_ABSENT := "list.remove(x): x not in list"

  /** Where `list.insert(i, x)` puts `x` in a list of length `n`: a negative
      `i` counts from the end, and both ends clamp. */
  function InsertPosition(i: int, n: nat): (k: nat)
    ensures k <= n
    ensures 0 <= i <= n ==> k == i
    ensures 0 <= n + i && i < 0 ==> k == n + i
    ensures n < i ==> k == n
    ensures n + i < 0 ==> k == 0
  {
    if i < 0 then (if i + n < 0 then 0 else i + n)
    else if i > n then n
    else i
  }

  /** The element an item index designates (`s[i]`, `del s[i]`, `s.pop(i)`),
      or None when Python raises IndexError. */
  function ItemPosition(i: int, n: nat): (k: Option<nat>)
    ensures k.Some? <==> 0 <= n + i && i < n
    ensures k.Some? ==> k.value < n && k.value as int == (if i < 0 then n + i else i)
  {
    var j := if i < 0 then n + i else i;
    if 0 <= j < n then Some(j) else None
  }

  /** A bound of a slice with step 1 (`PySlice_AdjustIndices`): a negative
      bound counts from the end, and both ends clamp. */
  function SliceBound(b: Option<int>, default: nat, n: nat): (k: nat)
    requires default <= n
    ensures k <= n
    ensures b.None? ==> k == default
    ensures b.Some? ==> k == InsertPosition(b.value, n)
  {
    match b
    case None => default
    case Some(i) => InsertPosition(i, n)
  }

  /** The half-open range `s[start:stop]` designates, with `lo <= hi`. */
  function SliceRange(start: Option<int>, stop: Option<int>, n: nat): (r: (nat, nat))
    ensures r.0 <= r.1 <= n
  {
    var lo := SliceBound(start, 0, n);
    var hi := SliceBound(stop, n, n);
    (lo, if hi < lo then lo else hi)
  }

  /** `s.insert(i, x)` */
  function ListInsert(s: seq<string>, i: int, x: string): (r: seq<string>)
    ensures |r| == |s| + 1
    ensures var k := InsertPosition(i, |s|);
      r[k] == x && r[..k] == s[..k] && r[k + 1..] == s[k..]
    ensures multiset(r) == multiset(s) + multiset{x}
  {
    var k := InsertPosition(i, |s|);
    assert s == s[..k] + s[k..];
    s[..k] + [x] + s[k..]
  }

  /** `s.pop()` / `s.pop(i)`: the new list and the element removed. */
  function ListPop(s: seq<string>, i: Option<int>): (r: Result<(seq<string>, string), ListError>)
    ensures |s| == 0 ==> r == Failure(IndexError(POP_EMPTY))
    ensures |s| > 0 ==> (r.Failure? <==> ItemPosition(i.GetOr(-1), |s|).None?)
    ensures r.Failure? && |s| > 0 ==> r == Failure(IndexError(POP_RANGE))
    ensures r.Success? ==> var k := ItemPosition(i.GetOr(-1), |s|).value;
      |r.value.0| + 1 == |s| && r.value.1 == s[k] && ListInsert(r.value.0, k, r.value.1) == s
  {
    if |s| == 0 then Failure(IndexError(POP_EMPTY))
    else
      match ItemPosition(i.GetOr(-1), |s|)
      case None => Failure(IndexError(POP_RANGE))
      case Some(k) =>
        var rest := s[..k] + s[k + 1..];
        assert rest[..k] + [s[k]] + rest[k..] == s;
        Success((rest, s[k]))
  }

  /** The position of the first occurrence of `x` (`s.index(x)`). */
  function IndexOf(s: seq<string>, x: string): (k: nat)
    requires x in s
    ensures k < |s| && s[k] == x && x !in s[..k]
  {
    if s[0] == x then 0
    else
      var k := IndexOf(s[1..], x);
      assert s[..k + 1] == [s[0]] + s[1..][..k];
      k + 1
  }

  /** `s.remove(x)`: drops the first occurrence; ValueError if there is none. */
  function ListRemove(s: seq<string>, x: string): (r: Result<seq<string>, ListError>)
    ensures r.Failure? <==> x !in s
    ensures r.Failure? ==> r.error == ValueError(REMOVE_ABSENT)
    ensures r.Success? ==> var k := IndexOf(s, x);
      r.value == s[..k] + s[k + 1..] && multiset(r.value) == multiset(s) - multiset{x}
  {
    if x !in s then Failure(ValueError(REMOVE_ABSENT))
    else
      var k := IndexOf(s, x);
      assert s == s[..k] + [s[k]] + s[k + 1..];
      Success(s[..k] + s[k + 1..])
  }

  /** `del s[i]` */
  function ListDelItem(s: seq<string>, i: int): (r: Result<seq<string>, ListError>)
    ensures r.Failure? <==> ItemPosition(i, |s|).None?
    ensures r.Failure? ==> r.error == IndexError(DEL_RANGE)
    ensures r.Success? ==> var k := ItemPosition(i, |s|).value;
      |r.value| + 1 == |s| && r.value[..k] == s[..k] && r.value[k..] == s[k + 1..]
  {
    match ItemPosition(i, |s|)
    case None => Failure(IndexError(DEL_RANGE))
    case Some(k) => Success(s[..k] + s[k + 1..])
  }

  /** `del s[start:stop]`: never fails; an empty range deletes nothing. */
  function ListDelSlice(s: seq<string>, start: Option<int>, stop: Option<int>): (r: seq<string>)
    ensures var (lo, hi) := SliceRange(start, stop, |s|);
      |r| == |s| - (hi - lo) && r[..lo] == s[..lo] && r[lo..] == s[hi..]
  {
    var (lo, hi) := SliceRange(start, stop, |s|);
    s[..lo] + s[hi..]
  }

  /** `s[i] = x` */
  function ListSetItem(s: seq<string>, i: int, x: string): (r: Result<seq<string>, ListError>)
    ensures r.Failure? <==> ItemPosition(i, |s|).None?
    ensures r.Failure? ==> r.error == IndexError(SET_RANGE)
    ensures r.Success? ==> var k := ItemPosition(i, |s|).value;
      |r.value| == |s| && r.value[k] == x &&
      forall j :: 0 <= j < |s| && j != k ==> r.value[j] == s[j]
  {
    match ItemPosition(i, |s|)
    case None => Failure(IndexError(SET_RANGE))
    case Some(k) => Success(s[k := x])
  }

  /** `s[start:stop] = xs`: the range is replaced by `xs`, whatever its length. */
  function ListSetSlice(s: seq<string>, start: Option<int>, stop: Option<int>, xs: seq<string>): (r: seq<string>)
    ensures var (lo, hi) := SliceRange(start, stop, |s|);
      |r| == |s| - (hi - lo) + |xs| && r[..lo] == s[..lo] &&
      r[lo..lo + |xs|] == xs && r[lo + |xs|..] == s[hi..]
  {
    var (lo, hi) := SliceRange(start, stop, |s|);
    s[..lo] + xs + s[hi..]
  }

  /** One call of a mutating list method, with its arguments. */
  datatype Mutation =
    | Insert(index: int, value: string)
    | Append(value: string)
    | Extend(values: seq<string>)
    | Pop(at: Option<int>)
    | Remove(value: string)
    | DelItem(index: int)
    | DelSlice(start: Option<int>, stop: Option<int>)
    | SetItem(index: int, value: string)
    | SetSlice(start: Option<int>, stop: Option<int>, values: seq<string>)

  /** The method name the sleuth reports (`insert`, ..., `__setitem__`). */
  function Action(m: Mutation): string {
    match m
    case Insert(_, _) => "insert"
    case Append(_) => "append"
    case Extend(_) => "extend"
    case Pop(_) => "pop"
    case Remove(_) => "remove"
    case DelItem(_) | DelSlice(_, _) => "__delitem__"
    case SetItem(_, _) | SetSlice(_, _, _) => "__setitem__"
  }

  /** The positional arguments of the call, as the sleuth's `*args` sees them. */
  function Args(m: Mutation): seq<PyValue> {
    match m
    case Insert(i, x) => [PyInt(i), PyStr(x)]
    case Append(x) => [PyStr(x)]
    case Extend(xs) => [PyStrList(xs)]
    case Pop(at) => if at.Some? then [PyInt(at.value)] else []
    case Remove(x) => [PyStr(x)]
    case DelItem(i) => [PyInt(i)]
    case DelSlice(a, b) => [PySlice(a, b)]
    case SetItem(i, x) => [PyInt(i), PyStr(x)]
    case SetSlice(a, b, xs) => [PySlice(a, b), PyStrList(xs)]
  }

  /** The effect of one call on a plain list: the new contents and the
      call's return value (`pop` returns the element, the others None), or
      the error Python raises, leaving the list as it was. */
  function Apply(s: seq<string>, m: Mutation): Result<(seq<string>, Option<string>), ListError> {
    match m
    case Insert(i, x) => Success((ListInsert(s, i, x), None))
    case Append(x) => Success((s + [x], None))
    case Extend(xs) => Success((s + xs, None))
    case Pop(at) =>
      (match ListPop(s, at)
       case Success((rest, x)) => Success((rest, Some(x)))
       case Failure(e) => Failure(e))
    case Remove(x) =>
      (match ListRemove(s, x)
       case Success(rest) => Success((rest, None))
       case Failure(e) => Failure(e))
    case DelItem(i) =>
      (match ListDelItem(s, i)
       case Success(rest) => Success((rest, None))
       case Failure(e) => Failure(e))
    case DelSlice(a, b) => Success((ListDelSlice(s, a, b), None))
    case SetItem(i, x) =>
      (match ListSetItem(s, i, x)
       case Success(rest) => Success((rest, None))
       case Failure(e) => Failure(e))
    case SetSlice(a, b, xs) => Success((ListSetSlice(s, a, b, xs), None))
  }

  /** A series of calls on a plain list; the first error stops it. */
  function ApplyAll(s: seq<string>, ms: seq<Mutation>): Result<seq<string>, ListError>
    decreases |ms|
  {
    if |ms| == 0 then Success(s)
    else
      match Apply(s, ms[0])
      case Success((t, _)) => ApplyAll(t, ms[1..])
      case Failure(e) => Failure(e)
  }
}

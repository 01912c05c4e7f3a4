/** Python's `repr` of the argument tuples that the sleuth's messages show,
    for the argument shapes the list mutators take. */
module PyRepr {
  import opened Wrappers
  import Decimal

  /** An argument passed to a list mutator: an index, a path string, a list of
      path strings, or a slice with step None. */
  datatype PyValue =
    | PyInt(i: int)
    | PyStr(s: string)
    | PyStrList(items: seq<string>)
    | PySlice(start: Option<int>, stop: Option<int>)

  /** `repr(s)` for a string with no quote, backslash or control character. */
  function StrRepr(s: string): string {
    "'" + s + "'"
  }

  function OptIntRepr(o: Option<int>): string {
    match o
    case Some(i) => Decimal.IntToString(i)
    case None => "None"
  }

  /** The strings of `items` separated by ", ". */
  function CommaJoin(items: seq<string>): string
    decreases |items|
  {
    if |items| == 0 then ""
    else if |items| == 1 then items[0]
    else CommaJoin(items[..|items| - 1]) + ", " + items[|items| - 1]
  }

  function StrReprs(items: seq<string>): (r: seq<string>)
    ensures |r| == |items|
    ensures forall k :: 0 <= k < |items| ==> r[k] == StrRepr(items[k])
  {
    seq(|items|, k requires 0 <= k < |items| => StrRepr(items[k]))
  }

  function Repr(v: PyValue): string {
    match v
    case PyInt(i) => Decimal.IntToString(i)
    case PyStr(s) => StrRepr(s)
    case PyStrList(items) => "[" + CommaJoin(StrReprs(items)) + "]"
    case PySlice(start, stop) =>
      "slice(" + OptIntRepr(start) + ", " + OptIntRepr(stop) + ", None)"
  }

  function Reprs(args: seq<PyValue>): (r: seq<string>)
    ensures |r| == |args|
    ensures forall k :: 0 <= k < |args| ==> r[k] == Repr(args[k])
  {
    seq(|args|, k requires 0 <= k < |args| => Repr(args[k]))
  }

  /** `repr(args)` for a tuple: a one-element tuple keeps its trailing comma. */
  function ArgsRepr(args: seq<PyValue>): string {
    if |args| == 1 then "(" + Repr(args[0]) + ",)"
    else "(" + CommaJoin(Reprs(args)) + ")"
  }
}

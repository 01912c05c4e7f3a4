/** `runtime_syspath.print_sorted_syspath`: the older copy of the search
    path filter. It keeps a standard filter of its own, separate from the
    one in `syspath_utils`, and filters, sorts and prints exactly as that
    module does, so it reuses its definitions. */
module PrintSortedSyspath {
  import opened Wrappers
  import opened SyspathUtils

  /** This module's own `_STD_SYSPATH_FILTER`. */
  class StdFilter {
    var pattern: Option<Pattern>

    constructor()
      ensures pattern == None
    {
      pattern := None;
    }

    /** `init_std_syspath_filter` */
    method InitStdSyspathFilter(std: Option<Pattern>)
      modifies this
      ensures pattern == std
    {
      pattern := std;
    }

    /** `filtered_sorted_syspath`: unchanged without filtering or sorting,
        else the entries neither filter matches, in order or descending. */
    method FilteredSortedSyspath(sysPath: seq<string>, pathFilter: Option<Pattern>, noFiltering: bool, sort: bool)
      returns (r: seq<string>)
      ensures r == FilteredSorted(sysPath, pattern, pathFilter, noFiltering, sort)
    {
      r := FilteredSorted(sysPath, pattern, pathFilter, noFiltering, sort);
    }

    /** `print_syspath`: a header giving the number of entries, then one
        tab-indented line per entry in the order filtering left them. */
    method PrintSyspath(sysPath: seq<string>, pathFilter: Option<Pattern>, noFiltering: bool, sort: bool)
      returns (lines: seq<string>)
      ensures var paths := FilteredSorted(sysPath, pattern, pathFilter, noFiltering, sort);
        |lines| == |paths| + 1 && lines[0] == Header(|paths|) &&
        forall i :: 0 <= i < |paths| ==> lines[i + 1] == "\t" + paths[i]
    {
      var paths := FilteredSortedSyspath(sysPath, pathFilter, noFiltering, sort);
      lines := PrintPaths(paths);
    }
  }
}

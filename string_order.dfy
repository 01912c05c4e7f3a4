/** Python's ordering of `str` values, code point by code point, with a
    proper prefix ordered before the longer string; and `sorted(...,
    reverse=True)` as the unique descending arrangement of a list. */
module StringOrder {

  /** `a <= b` on Python strings. */
  predicate Leq(a: string, b: string)
    decreases |a|
  {
    |a| == 0 || (|b| > 0 && (a[0] < b[0] || (a[0] == b[0] && Leq(a[1..], b[1..]))))
  }

  lemma {:induction false} LeqTotal(a: string, b: string)
    ensures Leq(a, b) || Leq(b, a)
    decreases |a|
  {
    if |a| > 0 && |b| > 0 && a[0] == b[0] {
      LeqTotal(a[1..], b[1..]);
    }
  }

  lemma {:induction false} LeqTrans(a: string, b: string, c: string)
    requires Leq(a, b) && Leq(b, c)
    ensures Leq(a, c)
    decreases |a|
  {
    if |a| > 0 && a[0] == b[0] && b[0] == c[0] {
      LeqTrans(a[1..], b[1..], c[1..]);
    }
  }

  lemma {:induction false} LeqAntisymmetric(a: string, b: string)
    requires Leq(a, b) && Leq(b, a)
    ensures a == b
    decreases |a|
  {
    if |a| > 0 {
      LeqAntisymmetric(a[1..], b[1..]);
      assert a == [a[0]] + a[1..] && b == [b[0]] + b[1..];
    }
  }

  /** Every later entry is at most every earlier one. */
  predicate SortedDescending(s: seq<string>) {
    forall i, j :: 0 <= i < j < |s| ==> Leq(s[j], s[i])
  }

  /** Puts `x` before the first entry not greater than it. */
  function InsertDescending(x: string, s: seq<string>): (r: seq<string>)
    requires SortedDescending(s)
    ensures SortedDescending(r)
    ensures multiset(r) == multiset(s) + multiset{x}
  {
    if |s| == 0 then [x]
    else if Leq(s[0], x) then
      forall j | 0 <= j < |s| ensures Leq(s[j], x) {
        if j > 0 { LeqTrans(s[j], s[0], x); }
      }
      assert multiset([x] + s) == multiset{x} + multiset(s);
      [x] + s
    else
      LeqTotal(s[0], x);
      var rest := InsertDescending(x, s[1..]);
      assert s == [s[0]] + s[1..];
      forall y | y in rest ensures Leq(y, s[0]) {
        assert y in multiset(rest);
        assert y == x || y in multiset(s[1..]);
      }
      var r := [s[0]] + rest;
      assert forall j :: 0 < j < |r| ==> r[j] == rest[j - 1];
      r
  }

  /** `sorted(s, reverse=True)` */
  function SortDescending(s: seq<string>): (r: seq<string>)
    ensures SortedDescending(r)
    ensures multiset(r) == multiset(s)
  {
    if |s| == 0 then []
    else
      assert s == [s[0]] + s[1..];
      InsertDescending(s[0], SortDescending(s[1..]))
  }

  /** The head of a descending list is its greatest entry. */
  lemma HeadIsGreatest(s: seq<string>, x: string)
    requires SortedDescending(s) && x in s
    ensures Leq(x, s[0])
  {
    var i :| 0 <= i < |s| && s[i] == x;
    if i == 0 {
      LeqTotal(x, x);
    }
  }

  /** There is only one descending arrangement of a list: whichever
      algorithm sorts, the result is the same. */
  lemma {:induction false} SortedPermutationUnique(a: seq<string>, b: seq<string>)
    requires SortedDescending(a) && SortedDescending(b)
    requires multiset(a) == multiset(b)
    ensures a == b
    decreases |a|
  {
    if |a| > 0 {
      assert |b| == |multiset(b)| == |a|;
      assert a[0] in multiset(b) && b[0] in multiset(a);
      HeadIsGreatest(b, a[0]);
      HeadIsGreatest(a, b[0]);
      LeqAntisymmetric(a[0], b[0]);
      var ta, tb := a[1..], b[1..];
      assert a == [a[0]] + ta && b == [b[0]] + tb;
      assert multiset(ta) == multiset(tb) by {
        assert multiset(a) == multiset{a[0]} + multiset(ta);
        assert multiset(b) == multiset{b[0]} + multiset(tb);
        forall y ensures multiset(ta)[y] == multiset(tb)[y] {
          assert multiset(a)[y] == multiset(b)[y];
        }
      }
      assert SortedDescending(ta) && SortedDescending(tb);
      SortedPermutationUnique(ta, tb);
    }
  }

  /** `sorted` of an already descending list returns it unchanged. */
  lemma SortSorted(s: seq<string>)
    requires SortedDescending(s)
    ensures SortDescending(s) == s
  {
    SortedPermutationUnique(SortDescending(s), s);
  }
}

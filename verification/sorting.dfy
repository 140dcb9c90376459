/**
 * Stable insertion sorts standing for `Array.prototype.sort` with the two
 * comparators the store uses: a timestamp, newest first, and a name, in
 * `Text.Le` order.
 */
module Sorting {
  import Text
  import opened Seqs

  ghost predicate SortedDesc<T>(s: seq<T>, key: T -> int) {
    forall i, j :: 0 <= i < j < |s| ==> key(s[i]) >= key(s[j])
  }

  /** Every key of `a` is at most `bound` when `a` holds exactly the elements of `b` and `x`, all at most `bound`. */
  lemma BoundedByParts<T>(a: seq<T>, b: seq<T>, x: T, key: T -> int, bound: int)
    requires multiset(a) == multiset(b) + multiset{x}
    requires key(x) <= bound
    requires forall k :: 0 <= k < |b| ==> key(b[k]) <= bound
    ensures forall j :: 0 <= j < |a| ==> key(a[j]) <= bound
  {
    forall j | 0 <= j < |a|
      ensures key(a[j]) <= bound
    {
      assert a[j] in multiset(a);
      if a[j] != x {
        assert a[j] in multiset(b);
        var k :| 0 <= k < |b| && b[k] == a[j];
      }
    }
  }

  /** Inserts `x` before the first element whose key is not larger. */
  function InsertDesc<T>(x: T, s: seq<T>, key: T -> int): (r: seq<T>)
    ensures SortedDesc(s, key) ==> SortedDesc(r, key)
    ensures multiset(r) == multiset(s) + multiset{x}
    decreases |s|
  {
    if |s| == 0 then [x]
    else if key(x) >= key(s[0]) then [x] + s
    else
      var rest := InsertDesc(x, s[1..], key);
      assert s == [s[0]] + s[1..];
      assert SortedDesc(s, key) ==> forall j :: 0 <= j < |rest| ==> key(rest[j]) <= key(s[0]) by {
        if SortedDesc(s, key) {
          BoundedByParts(rest, s[1..], x, key, key(s[0]));
        }
      }
      [s[0]] + rest
  }

  /** Sorts by `key`, largest first; elements with equal keys keep their order. */
  function SortDesc<T>(s: seq<T>, key: T -> int): (r: seq<T>)
    ensures SortedDesc(r, key)
    ensures multiset(r) == multiset(s)
    decreases |s|
  {
    if |s| == 0 then []
    else
      assert s == [s[0]] + s[1..];
      InsertDesc(s[0], SortDesc(s[1..], key), key)
  }

  /** Inserting `x` in front of keys it is not smaller than is prepending it. */
  lemma InsertDescFront<T>(x: T, s: seq<T>, key: T -> int)
    requires forall i :: 0 <= i < |s| ==> key(x) >= key(s[i])
    ensures InsertDesc(x, s, key) == [x] + s
  {
  }

  /** Filtering keeps every remaining key below a bound that held for the whole list. */
  lemma FilterBelow<T>(s: seq<T>, key: T -> int, p: T -> bool, bound: int)
    requires forall i :: 0 <= i < |s| ==> key(s[i]) <= bound
    ensures forall i :: 0 <= i < |Filter(s, p)| ==> key(Filter(s, p)[i]) <= bound
  {
    var fs := Filter(s, p);
    forall i | 0 <= i < |fs|
      ensures key(fs[i]) <= bound
    {
      var k :| 0 <= k < |s| && s[k] == fs[i];
    }
  }

  lemma {:induction false} FilterInsertDesc<T>(x: T, s: seq<T>, key: T -> int, p: T -> bool)
    requires SortedDesc(s, key)
    ensures Filter(InsertDesc(x, s, key), p)
         == if p(x) then InsertDesc(x, Filter(s, p), key) else Filter(s, p)
    decreases |s|
  {
    if |s| == 0 {
    } else if key(x) >= key(s[0]) {
      FilterCons(x, s, p);
      if p(x) {
        FilterBelow(s, key, p, key(x));
        InsertDescFront(x, Filter(s, p), key);
      }
    } else {
      FilterIsSubseqSorted(s[1..], key, p);
      FilterInsertDesc(x, s[1..], key, p);
      FilterCons(s[0], InsertDesc(x, s[1..], key), p);
      assert s == [s[0]] + s[1..];
      FilterCons(s[0], s[1..], p);
    }
  }

  lemma {:induction false} FilterIsSubseqSorted<T>(s: seq<T>, key: T -> int, p: T -> bool)
    requires SortedDesc(s, key)
    ensures SortedDesc(Filter(s, p), key)
    decreases |s|
  {
    if |s| > 0 {
      FilterIsSubseqSorted(s[1..], key, p);
      var fs := Filter(s[1..], p);
      forall i | 0 <= i < |fs|
        ensures key(s[0]) >= key(fs[i])
      {
        var k :| 0 <= k < |s[1..]| && s[1..][k] == fs[i];
        assert s[k + 1] == fs[i];
      }
    }
  }

  /** Sorting then filtering equals filtering then sorting: the stable sort keeps the relative order of kept elements. */
  lemma {:induction false} FilterSortDesc<T>(s: seq<T>, key: T -> int, p: T -> bool)
    ensures Filter(SortDesc(s, key), p) == SortDesc(Filter(s, p), key)
    decreases |s|
  {
    if |s| > 0 {
      FilterSortDesc(s[1..], key, p);
      FilterInsertDesc(s[0], SortDesc(s[1..], key), key, p);
    }
  }

  ghost predicate SortedByText<T>(s: seq<T>, key: T -> string) {
    forall i, j :: 0 <= i < j < |s| ==> Text.Le(key(s[i]), key(s[j]))
  }

  /** Inserts `x` before the first element whose key it does not exceed. */
  function InsertByText<T>(x: T, s: seq<T>, key: T -> string): (r: seq<T>)
    requires SortedByText(s, key)
    ensures SortedByText(r, key)
    ensures multiset(r) == multiset(s) + multiset{x}
    decreases |s|
  {
    if |s| == 0 then [x]
    else if Text.Le(key(x), key(s[0])) then
      assert forall j :: 0 <= j < |s| ==> Text.Le(key(x), key(s[j])) by {
        forall j | 0 <= j < |s|
          ensures Text.Le(key(x), key(s[j]))
        {
          if j > 0 {
            Text.LeTrans(key(x), key(s[0]), key(s[j]));
          }
        }
      }
      [x] + s
    else
      var rest := InsertByText(x, s[1..], key);
      assert s == [s[0]] + s[1..];
      assert forall j :: 0 <= j < |rest| ==> Text.Le(key(s[0]), key(rest[j])) by {
        forall j | 0 <= j < |rest|
          ensures Text.Le(key(s[0]), key(rest[j]))
        {
          assert rest[j] in multiset(rest);
          if rest[j] != x {
            assert rest[j] in multiset(s[1..]);
            var k :| 0 <= k < |s[1..]| && s[1..][k] == rest[j];
            assert s[k + 1] == rest[j];
          } else {
            Text.LeTotal(key(x), key(s[0]));
          }
        }
      }
      [s[0]] + rest
  }

  /** Sorts by `key` in `Text.Le` order; elements with equal keys keep their order. */
  function SortByText<T>(s: seq<T>, key: T -> string): (r: seq<T>)
    ensures SortedByText(r, key)
    ensures multiset(r) == multiset(s)
    decreases |s|
  {
    if |s| == 0 then []
    else
      assert s == [s[0]] + s[1..];
      InsertByText(s[0], SortByText(s[1..], key), key)
  }
}

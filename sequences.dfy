/** The sequence primitives the binning and I/O code use: sorting by a key,
    `np.unique`, `np.arange` on integers, the NaN-skipping mean and the rows of
    a two-dimensional array. */
module Sequences {
  import opened Wrappers

  function Id(x: int): int {
    x
  }

  predicate SortedBy<T>(s: seq<T>, key: T -> int) {
    forall i, j :: 0 <= i < j < |s| ==> key(s[i]) <= key(s[j])
  }

  /** `[h] + t` is sorted when t is and h's key is the least. */
  lemma SortedCons<T>(h: T, t: seq<T>, key: T -> int)
    requires SortedBy(t, key)
    requires forall k :: 0 <= k < |t| ==> key(h) <= key(t[k])
    ensures SortedBy([h] + t, key)
  {
    var r := [h] + t;
    forall i, j | 0 <= i < j < |r|
      ensures key(r[i]) <= key(r[j])
    {
      if i > 0 {
        assert r[i] == t[i - 1] && r[j] == t[j - 1];
      } else {
        assert r[j] == t[j - 1];
      }
    }
  }

  /** x placed before the first element with a larger key. */
  function InsertByKey<T>(x: T, s: seq<T>, key: T -> int): (r: seq<T>)
    requires SortedBy(s, key)
    ensures |r| == |s| + 1
    ensures multiset(r) == multiset(s) + multiset{x}
    ensures SortedBy(r, key)
  {
    if s == [] then [x]
    else if key(x) <= key(s[0]) then
      SortedCons(x, s, key);
      [x] + s
    else
      var t := s[1..];
      assert SortedBy(t, key) by {
        forall i, j | 0 <= i < j < |t|
          ensures key(t[i]) <= key(t[j])
        {
          assert t[i] == s[i + 1] && t[j] == s[j + 1];
        }
      }
      var rest := InsertByKey(x, t, key);
      assert s == [s[0]] + t;
      forall k | 0 <= k < |rest|
        ensures key(s[0]) <= key(rest[k])
      {
        assert rest[k] in multiset(rest);
        if rest[k] != x {
          assert rest[k] in multiset(t);
          var i :| 0 <= i < |t| && t[i] == rest[k];
          assert t[i] == s[i + 1];
        }
      }
      SortedCons(s[0], rest, key);
      [s[0]] + rest
  }

  /** The elements of s in non-decreasing key order (an insertion sort). */
  function SortByKey<T>(s: seq<T>, key: T -> int): (r: seq<T>)
    ensures |r| == |s|
    ensures multiset(r) == multiset(s)
    ensures SortedBy(r, key)
  {
    if s == [] then []
    else
      assert s == s[..|s| - 1] + [s[|s| - 1]];
      InsertByKey(s[|s| - 1], SortByKey(s[..|s| - 1], key), key)
  }

  /** The minimum of a non-empty sorted sequence comes first. */
  lemma {:induction false} SortedHeadIsMin(s: seq<int>)
    requires |s| > 0 && SortedBy(s, Id)
    ensures forall x :: x in multiset(s) ==> s[0] <= x
  {
    forall x | x in multiset(s)
      ensures s[0] <= x
    {
      var i :| 0 <= i < |s| && s[i] == x;
      assert Id(s[0]) <= Id(s[i]) || i == 0;
    }
  }

  lemma EmptyMultiset(s: seq<int>)
    requires multiset(s) == multiset{}
    ensures s == []
  {
    assert |multiset(s)| == |s|;
  }

  lemma SortedHeadsEqual(a: seq<int>, b: seq<int>)
    requires |a| > 0 && |b| > 0 && SortedBy(a, Id) && SortedBy(b, Id) && multiset(a) == multiset(b)
    ensures a[0] == b[0]
  {
    assert a[0] in multiset(a) && b[0] in multiset(b);
    SortedHeadIsMin(a);
    SortedHeadIsMin(b);
  }

  lemma TailMultiset(a: seq<int>)
    requires |a| > 0
    ensures multiset(a) == multiset{a[0]} + multiset(a[1..])
  {
    assert a == [a[0]] + a[1..];
  }

  /** Removing equal heads from sequences with one multiset leaves tails with one multiset. */
  lemma TailsAgree(a: seq<int>, b: seq<int>)
    requires |a| > 0 && |b| > 0 && a[0] == b[0] && multiset(a) == multiset(b)
    ensures multiset(a[1..]) == multiset(b[1..])
  {
    TailMultiset(a);
    TailMultiset(b);
    assert multiset(a[1..]) == multiset(a) - multiset{a[0]};
    assert multiset(b[1..]) == multiset(b) - multiset{b[0]};
  }

  /** Two sorted arrangements of the same multiset of numbers are the same sequence. */
  lemma {:induction false} SortedUnique(a: seq<int>, b: seq<int>)
    requires SortedBy(a, Id) && SortedBy(b, Id) && multiset(a) == multiset(b)
    ensures a == b
  {
    if a == [] {
      EmptyMultiset(b);
    } else if b == [] {
      EmptyMultiset(a);
    } else {
      SortedHeadsEqual(a, b);
      TailsAgree(a, b);
      SortedBy1(a);
      SortedBy1(b);
      SortedUnique(a[1..], b[1..]);
      assert a == [a[0]] + a[1..] && b == [b[0]] + b[1..];
    }
  }

  lemma SortedBy1(s: seq<int>)
    requires |s| > 0 && SortedBy(s, Id)
    ensures SortedBy(s[1..], Id)
  {
    forall i, j | 0 <= i < j < |s[1..]|
      ensures Id(s[1..][i]) <= Id(s[1..][j])
    {
      assert s[1..][i] == s[i + 1] && s[1..][j] == s[j + 1];
    }
  }

  /** Sorting numbers depends only on their multiset. */
  lemma SortIsPermutationInvariant(a: seq<int>, b: seq<int>)
    requires multiset(a) == multiset(b)
    ensures SortByKey(a, Id) == SortByKey(b, Id)
  {
    SortedUnique(SortByKey(a, Id), SortByKey(b, Id));
  }

  /** Dropping the last element commutes with taking the head off. */
  lemma ConsInit<T>(s: seq<T>)
    requires |s| > 1
    ensures s[..|s| - 1] == [s[0]] + s[1..][..|s| - 2]
  {
  }

  lemma SnocAt<T>(s: seq<T>, x: T, i: nat)
    requires i <= |s|
    ensures (s + [x])[i] == if i < |s| then s[i] else x
  {
  }

  lemma ConcatAssoc<T>(a: seq<T>, b: seq<T>, c: seq<T>)
    ensures a + (b + c) == (a + b) + c
  {
  }

  predicate StrictlyIncreasing(s: seq<int>) {
    forall i, j :: 0 <= i < j < |s| ==> s[i] < s[j]
  }

  /** A sorted sequence with adjacent repeats dropped. */
  function Dedup(s: seq<int>): (r: seq<int>)
    requires SortedBy(s, Id)
    ensures StrictlyIncreasing(r)
    ensures forall x :: x in r <==> x in s
    ensures |r| > 0 && |s| > 0 ==> r[0] == s[0]
  {
    if |s| <= 1 then s
    else
      SortedBy1(s);
      var rest := Dedup(s[1..]);
      assert Id(s[0]) <= Id(s[1]);
      if s[0] == s[1] then rest
      else
        assert forall x :: x in rest ==> s[0] < x by {
          forall x | x in rest
            ensures s[0] < x
          {
            var i :| 0 <= i < |s[1..]| && s[1..][i] == x;
            assert Id(s[1]) <= Id(s[i + 1]) || i == 0;
          }
        }
        [s[0]] + rest
  }

  /** `np.unique`: the distinct values, in increasing order. */
  function Unique(s: seq<int>): (r: seq<int>)
    ensures StrictlyIncreasing(r)
    ensures forall x :: x in r <==> x in s
  {
    var sorted := SortByKey(s, Id);
    assert forall x :: x in sorted <==> x in multiset(s);
    Dedup(sorted)
  }

  /** The number of values `np.arange(start, stop, step)` produces for integers:
      ceil((stop - start) / step), or 0 when that is negative. */
  function ArangeCount(start: int, stop: int, step: int): (n: nat)
    requires step != 0
  {
    if step > 0 then (if stop > start then (stop - start + step - 1) / step else 0)
    else (if start > stop then (start - stop - step - 1) / (-step) else 0)
  }

  /** `np.arange(start, stop, step)` on integers: start, start + step, ... while
      short of stop. */
  function Arange(start: int, stop: int, step: int): (r: seq<int>)
    requires step != 0
    ensures |r| == ArangeCount(start, stop, step)
    ensures forall i :: 0 <= i < |r| ==> r[i] == start + i * step
  {
    seq(ArangeCount(start, stop, step), i => start + i * step)
  }

  lemma MulLeft(i: int, j: int, k: int)
    requires i <= j && k >= 0
    ensures i * k <= j * k
  {
    assert j * k - i * k == (j - i) * k;
  }

  lemma CeilDiv(num: int, d: int)
    requires d > 0 && num >= 0
    ensures (num / d) * d <= num < (num / d) * d + d
  {
  }

  /** For a positive step: n = ceil(gap / step) is the least n with n * step >= gap. */
  lemma CeilCount(gap: int, d: int)
    requires gap > 0 && d > 0
    ensures var n := (gap + d - 1) / d; n * d >= gap && forall i :: 0 <= i < n ==> i * d < gap
  {
    var n := (gap + d - 1) / d;
    CeilDiv(gap + d - 1, d);
    forall i | 0 <= i < n
      ensures i * d < gap
    {
      MulLeft(i, n - 1, d);
    }
  }

  /** Every value of the range lies short of stop, and the next step would not. */
  lemma ArangeStopsAtStop(start: int, stop: int, step: int)
    requires step != 0
    ensures var r := Arange(start, stop, step);
      (forall i :: 0 <= i < |r| ==> (if step > 0 then r[i] < stop else r[i] > stop))
      && (if step > 0 then start + |r| * step >= stop else start + |r| * step <= stop)
  {
    var n := ArangeCount(start, stop, step);
    if step > 0 && stop > start {
      CeilCount(stop - start, step);
    } else if step < 0 && start > stop {
      CeilCount(start - stop, -step);
      assert n * step == -(n * -step);
      forall i | 0 <= i < n
        ensures i * step == -(i * -step)
      {
      }
    }
  }

  function SumSome(vals: seq<Option<real>>): real {
    if vals == [] then 0.0
    else SumSome(vals[..|vals| - 1]) + (if vals[|vals| - 1].Some? then vals[|vals| - 1].value else 0.0)
  }

  function CountSome(vals: seq<Option<real>>): (n: nat)
    ensures n <= |vals|
    ensures n == 0 <==> forall i :: 0 <= i < |vals| ==> vals[i].None?
  {
    if vals == [] then 0
    else CountSome(vals[..|vals| - 1]) + (if vals[|vals| - 1].Some? then 1 else 0)
  }

  /** `np.nanmean`: the mean of the present values, none when there are none. */
  function NanMean(vals: seq<Option<real>>): (m: Option<real>)
    ensures m.None? <==> forall i :: 0 <= i < |vals| ==> vals[i].None?
  {
    var n := CountSome(vals);
    if n == 0 then None else Some(SumSome(vals) / n as real)
  }

  /** With one value present among the selected ones, sum and count are that value and 1. */
  lemma {:induction false} SumSomeSingle(vals: seq<Option<real>>, k: nat)
    requires k < |vals| && vals[k].Some?
    requires forall i :: 0 <= i < |vals| && i != k ==> vals[i].None?
    ensures SumSome(vals) == vals[k].value && CountSome(vals) == 1
  {
    var init := vals[..|vals| - 1];
    if k < |vals| - 1 {
      assert init[k] == vals[k];
      forall i | 0 <= i < |init| && i != k
        ensures init[i].None?
      {
        assert init[i] == vals[i];
      }
      SumSomeSingle(init, k);
    } else {
      assert CountSome(init) == 0 by {
        forall i | 0 <= i < |init|
          ensures init[i].None?
        {
          assert init[i] == vals[i];
        }
      }
      SumSomeNone(init);
    }
  }

  lemma {:induction false} SumSomeNone(vals: seq<Option<real>>)
    requires CountSome(vals) == 0
    ensures SumSome(vals) == 0.0
  {
    if vals != [] {
      SumSomeNone(vals[..|vals| - 1]);
    }
  }

  /** The mean of a single present value is that value. */
  lemma NanMeanSingle(vals: seq<Option<real>>, k: nat)
    requires k < |vals| && vals[k].Some?
    requires forall i :: 0 <= i < |vals| && i != k ==> vals[i].None?
    ensures NanMean(vals) == Some(vals[k].value)
  {
    SumSomeSingle(vals, k);
  }

  /** Row n of a two-dimensional array. */
  function Row<T>(a: array2<T>, n: int): (r: seq<T>)
    reads a
    requires 0 <= n < a.Length0
    ensures |r| == a.Length1 && forall k :: 0 <= k < a.Length1 ==> r[k] == a[n, k]
  {
    seq(a.Length1, k requires 0 <= k < a.Length1 reads a => a[n, k])
  }

  /** The rows of a two-dimensional array. */
  function Rows<T>(a: array2<T>): (rows: seq<seq<T>>)
    reads a
    ensures |rows| == a.Length0
    ensures forall n :: 0 <= n < a.Length0 ==> rows[n] == Row(a, n)
  {
    seq(a.Length0, n requires 0 <= n < a.Length0 reads a => Row(a, n))
  }

  /** An array whose cells are those of a sequence of equal-length rows has those rows. */
  lemma RowsOf<T>(a: array2<T>, rows: seq<seq<T>>)
    requires |rows| == a.Length0 && forall o :: 0 <= o < |rows| ==> |rows[o]| == a.Length1
    requires forall o, c :: 0 <= o < a.Length0 && 0 <= c < a.Length1 ==> a[o, c] == rows[o][c]
    ensures Rows(a) == rows
  {
    forall o | 0 <= o < |rows|
      ensures Rows(a)[o] == rows[o]
    {
    }
  }
}

/** The finite difference and the positional median date (ssjlatbin/tools.py).
    Timestamps are integer nanoseconds since the epoch, as pandas stores them. */
module Tools {
  import opened Wrappers
  import opened Sequences

  const NanosPerDay: int := 86400 * 1000000000

  /** The calendar day (days since the epoch) of a timestamp, rounding down as
      `.date()` does, before the epoch too. */
  function DateOf(t: int): (d: int)
    ensures d * NanosPerDay <= t < (d + 1) * NanosPerDay
  {
    t / NanosPerDay
  }

  /** `np.diff`: the differences of neighbours. */
  function Diff(y: seq<real>): (d: seq<real>)
    ensures |d| == if |y| == 0 then 0 else |y| - 1
    ensures forall i :: 0 <= i < |d| ==> d[i] == y[i + 1] - y[i]
  {
    if |y| <= 1 then [] else [y[1] - y[0]] + Diff(y[1..])
  }

  /** `derivative`: the differences with the first one repeated at the end, so
      the result has the input's length; fewer than two values leave nothing to
      repeat and indexing the empty difference raises IndexError. */
  function Derivative(y: seq<real>): (r: Result<seq<real>>)
    ensures r.Failure? <==> |y| < 2
    ensures r.Failure? ==> r.error == IndexError
    ensures r.Success? ==> |r.value| == |y|
    ensures r.Success? ==> forall i :: 0 <= i < |y| - 1 ==> r.value[i] == y[i + 1] - y[i]
    ensures r.Success? ==> r.value[|y| - 1] == y[1] - y[0]
  {
    var dy := Diff(y);
    if |dy| == 0 then Failure(IndexError) else Success(dy + [dy[0]])
  }

  function Sum(s: seq<real>): real {
    if s == [] then 0.0 else Sum(s[..|s| - 1]) + s[|s| - 1]
  }

  /** Adding up the derivative from the start recovers the series: apart from the
      repeated last entry, it is the inverse of taking differences. */
  lemma {:induction false} DerivativeTelescopes(y: seq<real>, k: nat)
    requires |y| >= 2 && k < |y|
    ensures Derivative(y).Success? && y[0] + Sum(Derivative(y).value[..k]) == y[k]
  {
    var dy := Derivative(y).value;
    if k > 0 {
      DerivativeTelescopes(y, k - 1);
      assert dy[..k][..k - 1] == dy[..k - 1];
      assert dy[..k][k - 1] == y[k] - y[k - 1];
    }
  }

  /** `median_date`: the date of the timestamp at position n / 2 once the index
      is sorted; an empty index raises IndexError. */
  function MedianDate(index: seq<int>): (r: Result<int>)
    ensures r.Failure? <==> |index| == 0
    ensures r.Failure? ==> r.error == IndexError
    ensures r.Success? ==> exists t :: t in index && r.value == DateOf(t)
  {
    if |index| == 0 then Failure(IndexError)
    else
      var sorted := SortByKey(index, Id);
      assert sorted[|index| / 2] in multiset(index);
      Success(DateOf(sorted[|index| / 2]))
  }

  /** The median date does not depend on the order of the rows. */
  lemma MedianDatePermutationInvariant(a: seq<int>, b: seq<int>)
    requires multiset(a) == multiset(b)
    ensures MedianDate(a) == MedianDate(b)
  {
    SortIsPermutationInvariant(a, b);
    assert |a| == |multiset(a)| == |multiset(b)| == |b|;
  }

  /** On an index that is already sorted it is the date of the middle entry,
      the upper one of the two for an even count: a positional median. */
  lemma MedianDateOfSorted(index: seq<int>)
    requires |index| > 0 && SortedBy(index, Id)
    ensures MedianDate(index) == Success(DateOf(index[|index| / 2]))
  {
    SortedUnique(SortByKey(index, Id), index);
  }
}

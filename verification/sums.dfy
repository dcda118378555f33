/** Sums of a real-valued measure over a sequence, as SQL `SUM` and Python `sum` compute them. */
module Sums {
  import Sorting

  function Sum<T>(xs: seq<T>, f: T -> real): real {
    if |xs| == 0 then 0.0 else f(xs[0]) + Sum(xs[1..], f)
  }

  lemma {:induction false} SumAppend<T>(a: seq<T>, b: seq<T>, f: T -> real)
    ensures Sum(a + b, f) == Sum(a, f) + Sum(b, f)
  {
    if |a| > 0 {
      SumAppend(a[1..], b, f);
      assert (a + b)[1..] == a[1..] + b;
    } else {
      assert a + b == b;
    }
  }

  /** Removing the element at `k` takes exactly its measure off the sum. */
  lemma {:induction false} SumRemove<T>(xs: seq<T>, k: nat, f: T -> real)
    requires k < |xs|
    ensures Sum(xs, f) == f(xs[k]) + Sum(xs[..k] + xs[k + 1..], f)
  {
    assert xs == xs[..k] + xs[k..];
    SumAppend(xs[..k], xs[k..], f);
    SumAppend(xs[..k], xs[k + 1..], f);
    assert xs[k..][1..] == xs[k + 1..];
  }

  /** The order of the elements does not change the sum. */
  lemma {:induction false} SumPermutation<T>(a: seq<T>, b: seq<T>, f: T -> real)
    requires multiset(a) == multiset(b)
    ensures Sum(a, f) == Sum(b, f)
    decreases |a|
  {
    if |a| > 0 {
      assert a[0] in multiset(b);
      var k :| 0 <= k < |b| && b[k] == a[0];
      var b' := b[..k] + b[k + 1..];
      Sorting.MultisetRemoveAt(b, k);
      Sorting.MultisetTail(a);
      SumPermutation(a[1..], b', f);
      SumRemove(b, k, f);
    } else {
      assert |b| == |multiset(b)| == 0;
    }
  }
}

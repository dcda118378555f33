/**
 * Insertion sort over a caller-supplied "may come first" relation. SQL
 * `ORDER BY` is modelled as sorting by such a relation: the result is a
 * permutation of the input, ordered by it.
 */
module Sorting {

  /** `le` is total and transitive: it ranks every pair consistently. */
  ghost predicate TotalPreorder<T(!new)>(le: (T, T) -> bool) {
    && (forall a, b :: le(a, b) || le(b, a))
    && (forall a, b, c :: le(a, b) && le(b, c) ==> le(a, c))
  }

  /** Every element may come before every later one. */
  predicate SortedBy<T>(xs: seq<T>, le: (T, T) -> bool) {
    forall i, j :: 0 <= i < j < |xs| ==> le(xs[i], xs[j])
  }

  /** Puts `x` in front of the first element it may precede. */
  function Place<T>(x: T, xs: seq<T>, le: (T, T) -> bool): (r: seq<T>)
    ensures multiset(r) == multiset(xs) + multiset{x}
    ensures |r| == |xs| + 1
  {
    if |xs| == 0 || le(x, xs[0]) then [x] + xs
    else
      assert xs == [xs[0]] + xs[1..];
      [xs[0]] + Place(x, xs[1..], le)
  }

  function Sort<T>(xs: seq<T>, le: (T, T) -> bool): (r: seq<T>)
    ensures multiset(r) == multiset(xs)
    ensures |r| == |xs|
  {
    if |xs| == 0 then []
    else
      assert xs == [xs[0]] + xs[1..];
      Place(xs[0], Sort(xs[1..], le), le)
  }

  lemma {:induction false} PlaceSorted<T(!new)>(x: T, xs: seq<T>, le: (T, T) -> bool)
    requires TotalPreorder(le)
    requires SortedBy(xs, le)
    ensures SortedBy(Place(x, xs, le), le)
  {
    if |xs| > 0 && !le(x, xs[0]) {
      var rest := Place(x, xs[1..], le);
      PlaceSorted(x, xs[1..], le);
      forall k | 0 <= k < |rest|
        ensures le(xs[0], rest[k])
      {
        assert rest[k] in multiset(rest);
        if rest[k] != x {
          assert rest[k] in multiset(xs[1..]);
          var j :| 0 <= j < |xs[1..]| && xs[1..][j] == rest[k];
          assert xs[j + 1] == rest[k];
        }
      }
    } else if |xs| > 0 {
      forall j | 0 <= j < |xs|
        ensures le(x, xs[j])
      {
        if j > 0 {
          assert le(xs[0], xs[j]);
        }
      }
    }
  }

  /** The result of `Sort` is ordered by any total preorder it is given. */
  lemma {:induction false} SortSorted<T(!new)>(xs: seq<T>, le: (T, T) -> bool)
    requires TotalPreorder(le)
    ensures SortedBy(Sort(xs, le), le)
  {
    if |xs| > 0 {
      SortSorted(xs[1..], le);
      PlaceSorted(xs[0], Sort(xs[1..], le), le);
    }
  }

  /** No two elements share a key. */
  ghost predicate KeysDistinct<T, K>(xs: seq<T>, key: T -> K) {
    forall i, j :: 0 <= i < j < |xs| ==> key(xs[i]) != key(xs[j])
  }

  /** Dropping one element keeps the keys distinct. */
  lemma {:induction false} DropKeepsKeysDistinct<T, K>(b: seq<T>, k: nat, key: T -> K)
    requires k < |b| && KeysDistinct(b, key)
    ensures KeysDistinct(b[..k] + b[k + 1..], key)
  {
    var b' := b[..k] + b[k + 1..];
    forall i, j | 0 <= i < j < |b'| ensures key(b'[i]) != key(b'[j]) {
      var i' := if i < k then i else i + 1;
      var j' := if j < k then j else j + 1;
      assert b'[i] == b[i'] && b'[j] == b[j'];
    }
  }

  lemma {:induction false} MultisetTail<T>(a: seq<T>)
    requires |a| > 0
    ensures multiset(a[1..]) == multiset(a) - multiset{a[0]}
  {
    assert a == [a[0]] + a[1..];
  }

  lemma {:induction false} MultisetRemoveAt<T>(b: seq<T>, k: nat)
    requires k < |b|
    ensures multiset(b[..k] + b[k + 1..]) == multiset(b) - multiset{b[k]}
  {
    assert b == b[..k] + [b[k]] + b[k + 1..];
  }

  /** A rearrangement of elements with distinct keys still has distinct keys. */
  lemma {:induction false} PermutationKeepsKeysDistinct<T, K>(a: seq<T>, b: seq<T>, key: T -> K)
    requires multiset(a) == multiset(b)
    requires KeysDistinct(b, key)
    ensures KeysDistinct(a, key)
    decreases |a|
  {
    if |a| > 0 {
      assert a[0] in multiset(b);
      var k :| 0 <= k < |b| && b[k] == a[0];
      MultisetTail(a);
      MultisetRemoveAt(b, k);
      DropKeepsKeysDistinct(b, k, key);
      PermutationKeepsKeysDistinct(a[1..], b[..k] + b[k + 1..], key);
      HeadKeyFresh(a, b, k, key);
      ConsKeysDistinct(a, key);
    }
  }

  lemma {:induction false} HeadKeyFresh<T, K>(a: seq<T>, b: seq<T>, k: nat, key: T -> K)
    requires |a| > 0 && k < |b| && b[k] == a[0]
    requires KeysDistinct(b, key)
    requires multiset(a[1..]) == multiset(b[..k] + b[k + 1..])
    ensures forall j :: 1 <= j < |a| ==> key(a[0]) != key(a[j])
  {
    var b' := b[..k] + b[k + 1..];
    forall j | 1 <= j < |a| ensures key(a[0]) != key(a[j]) {
      assert a[j] == a[1..][j - 1];
      assert a[j] in multiset(b');
      var m :| 0 <= m < |b'| && b'[m] == a[j];
      var m' := if m < k then m else m + 1;
      assert b[m'] == a[j] && m' != k;
    }
  }

  lemma {:induction false} ConsKeysDistinct<T, K>(a: seq<T>, key: T -> K)
    requires |a| > 0
    requires KeysDistinct(a[1..], key)
    requires forall j :: 1 <= j < |a| ==> key(a[0]) != key(a[j])
    ensures KeysDistinct(a, key)
  {
    forall i, j | 0 <= i < j < |a| ensures key(a[i]) != key(a[j]) {
      if i > 0 {
        assert a[i] == a[1..][i - 1] && a[j] == a[1..][j - 1];
      }
    }
  }

  /**
   * When the order separates every two elements with different keys and the
   * keys are distinct, there is only one sorted arrangement.
   */
  lemma {:induction false} SortedPermutationsEqual<T(!new), K>(a: seq<T>, b: seq<T>, le: (T, T) -> bool, key: T -> K)
    requires multiset(a) == multiset(b)
    requires SortedBy(a, le) && SortedBy(b, le)
    requires KeysDistinct(b, key)
    requires forall x, y :: le(x, y) && le(y, x) ==> key(x) == key(y)
    ensures a == b
    decreases |a|
  {
    assert |a| == |multiset(a)| == |multiset(b)| == |b|;
    if |a| > 0 {
      assert a[0] in multiset(b);
      var k :| 0 <= k < |b| && b[k] == a[0];
      assert b[0] in multiset(a);
      var m :| 0 <= m < |a| && a[m] == b[0];
      if k != 0 {
        assert false;
      }
      MultisetTail(a);
      MultisetTail(b);
      SortedPermutationsEqual(a[1..], b[1..], le, key);
    }
  }
}

/** Rank positions of dates in descending order (generate_sequence_order.py). */
module SequenceOrder {
  import opened PyList

  function Range(n: nat): (r: seq<nat>)
    ensures |r| == n && forall k :: 0 <= k < n ==> r[k] == k
  {
    seq(n, k => k)
  }

  /** `s[::-1]`. */
  function Reverse<T>(s: seq<T>): (r: seq<T>)
    ensures |r| == |s|
  {
    if s == [] then [] else [s[|s| - 1]] + Reverse(s[..|s| - 1])
  }

  lemma {:induction false} ReverseAt<T>(s: seq<T>, k: nat)
    requires k < |s|
    ensures Reverse(s)[k] == s[|s| - 1 - k]
  {
    if k > 0 {
      ReverseAt(s[..|s| - 1], k - 1);
    }
  }

  /** `r` lists each of `0 .. n-1` exactly once. */
  predicate IsPermutation(r: seq<int>, n: nat)
  {
    && |r| == n
    && (forall k :: 0 <= k < n ==> 0 <= r[k] < n)
    && (forall a, b :: 0 <= a < b < n ==> r[a] != r[b])
    && (forall i :: 0 <= i < n ==> i in r)
  }

  function KeyAt(keys: seq<int>, i: nat): int
  {
    if i < |keys| then keys[i] else 0
  }

  function ByKey(keys: seq<int>): (nat, nat) -> bool
  {
    (i: nat, j: nat) => KeyAt(keys, i) <= KeyAt(keys, j)
  }

  /** `np.argsort(keys)`: a permutation of the indices that puts the keys in ascending order. */
  function ArgSort(keys: seq<int>): (r: seq<nat>)
    ensures IsPermutation(r, |keys|)
    ensures forall a, b :: 0 <= a < b < |keys| ==> keys[r[a]] <= keys[r[b]]
  {
    var r := SortBy(Range(|keys|), ByKey(keys));
    PermutationOfRange(r, |keys|);
    ByKeyTotal(keys);
    SortBySorted(Range(|keys|), ByKey(keys));
    assert forall a, b :: 0 <= a < b < |keys| ==> ByKey(keys)(r[a], r[b]);
    r
  }

  /** sequence_order_from_date: `argsort(argsort(dates)[::-1])`. */
  function Positions(dates: seq<int>): (pos: seq<nat>)
    ensures IsPermutation(pos, |dates|)
  {
    ArgSort(Reverse(ArgSort(dates)))
  }

  lemma {:induction false} RangeCounts(n: nat, x: int)
    ensures multiset(Range(n))[x] == if 0 <= x < n then 1 else 0
  {
    if n > 0 {
      assert Range(n) == Range(n - 1) + [n - 1];
      RangeCounts(n - 1, x);
    }
  }

  lemma {:induction false} TwoOccurrences(r: seq<nat>, a: nat, b: nat)
    requires a < b < |r| && r[a] == r[b]
    ensures multiset(r)[r[a]] >= 2
  {
    assert r == r[..a] + [r[a]] + r[a + 1..b] + [r[b]] + r[b + 1..];
  }

  lemma {:induction false} PermutationOfRange(r: seq<nat>, n: nat)
    requires multiset(r) == multiset(Range(n))
    ensures IsPermutation(r, n)
  {
    assert |r| == |multiset(r)| == n;
    forall k | 0 <= k < n ensures r[k] < n {
      assert r[k] in multiset(r);
      RangeCounts(n, r[k]);
    }
    forall a, b | 0 <= a < b < n ensures r[a] != r[b] {
      if r[a] == r[b] {
        TwoOccurrences(r, a, b);
        RangeCounts(n, r[a]);
        assert false;
      }
    }
    forall i | 0 <= i < n ensures i in r {
      RangeCounts(n, i);
      assert i in multiset(r);
    }
  }

  lemma {:induction false} ByKeyTotal(keys: seq<int>)
    ensures TotalPreorder(ByKey(keys))
  {
  }

  lemma {:induction false} AtLeastIndex(s: seq<int>, k: nat)
    requires forall a :: 0 <= a < |s| ==> 0 <= s[a]
    requires forall a :: 0 <= a < |s| - 1 ==> s[a] < s[a + 1]
    requires k < |s|
    ensures s[k] >= k
  {
    if k > 0 {
      AtLeastIndex(s, k - 1);
    }
  }

  lemma {:induction false} AtMostIndex(s: seq<int>, k: nat)
    requires forall a :: 0 <= a < |s| ==> s[a] < |s|
    requires forall a :: 0 <= a < |s| - 1 ==> s[a] < s[a + 1]
    requires k < |s|
    ensures s[k] <= k
    decreases |s| - k
  {
    if k < |s| - 1 {
      AtMostIndex(s, k + 1);
    }
  }

  /** Sorting the indices of a permutation by value inverts it. */
  lemma {:induction false} ArgSortInverts(q: seq<int>)
    requires IsPermutation(q, |q|)
    ensures forall i :: 0 <= i < |q| ==> ArgSort(q)[q[i]] == i
  {
    var n, a := |q|, ArgSort(q);
    var s := seq(n, k requires 0 <= k < n => q[a[k]]);
    forall k | 0 <= k < n - 1 ensures s[k] < s[k + 1] {
      assert q[a[k]] <= q[a[k + 1]];
      assert a[k] != a[k + 1];
    }
    forall k | 0 <= k < n ensures q[a[k]] == k {
      AtLeastIndex(s, k);
      AtMostIndex(s, k);
    }
    forall i | 0 <= i < n ensures a[q[i]] == i {
      var k := q[i];
      assert q[a[k]] == q[i];
    }
  }

  lemma {:induction false} ReversePermutation(so: seq<nat>, n: nat)
    requires IsPermutation(so, n)
    ensures IsPermutation(Reverse(so), n)
  {
    var rev := Reverse(so);
    forall k | 0 <= k < n ensures 0 <= rev[k] < n {
      ReverseAt(so, k);
    }
    forall a, b | 0 <= a < b < n ensures rev[a] != rev[b] {
      ReverseAt(so, a);
      ReverseAt(so, b);
    }
    forall i | 0 <= i < n ensures i in rev {
      assert i in so;
      var k :| 0 <= k < n && so[k] == i;
      ReverseAt(so, n - 1 - k);
    }
  }

  /** The output is a permutation of the indices, and it inverts the reversed ascending
      order: the index sorted `k`-th (ascending) gets position `n - 1 - k`. */
  lemma {:induction false} PositionsSpec(dates: seq<int>, k: nat)
    requires k < |dates|
    ensures ArgSort(dates)[k] < |Positions(dates)|
    ensures Positions(dates)[ArgSort(dates)[k]] == |dates| - 1 - k
  {
    var n, so := |dates|, ArgSort(dates);
    var rev := Reverse(so);
    ReversePermutation(so, n);
    var pos := ArgSort(rev);
    var i := n - 1 - k;
    ReverseAt(so, i);
    assert rev[i] == so[k];
    ArgSortInverts(rev);
    assert pos[rev[i]] == i;
  }

  /** A strictly later date gets a strictly smaller position. */
  lemma {:induction false} LaterDateFirst(dates: seq<int>, i: nat, j: nat)
    requires i < |dates| && j < |dates| && dates[i] > dates[j]
    ensures Positions(dates)[i] < Positions(dates)[j]
  {
    var n, so := |dates|, ArgSort(dates);
    assert i in so && j in so;
    var a :| 0 <= a < n && so[a] == i;
    var b :| 0 <= b < n && so[b] == j;
    PositionsSpec(dates, a);
    PositionsSpec(dates, b);
  }

  /** The strictly latest date gets position 0. */
  lemma {:induction false} LatestGetsZero(dates: seq<int>, i: nat)
    requires i < |dates|
    requires forall j :: 0 <= j < |dates| && j != i ==> dates[j] < dates[i]
    ensures Positions(dates)[i] == 0
  {
    var pos := Positions(dates);
    assert 0 in pos;
    var j :| 0 <= j < |dates| && pos[j] == 0;
    if j != i {
      LaterDateFirst(dates, i, j);
    }
  }

  /** The docstring input: the code gives [2, 0, 1] (the docstring claims [1, 0, 2]). */
  lemma {:induction false} DocExample()
    ensures Positions([20200101, 20210101, 20200102]) == [2, 0, 1]
  {
    var d := [20200101, 20210101, 20200102];
    var pos := Positions(d);
    LaterDateFirst(d, 1, 2);
    LaterDateFirst(d, 2, 0);
    assert 0 <= pos[1] < pos[2] < pos[0] < 3;
  }
}

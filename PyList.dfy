/** Python list slicing and the `sorted` used by the model, as functions on sequences. */
module PyList {
  import opened Wrappers

  /** Python's normalisation of a slice bound against a length `n`: a negative bound counts
      from the end, and a bound outside the list is clamped to it. */
  function SliceIndex(i: int, n: nat): (k: nat)
    ensures k <= n
    ensures 0 <= i <= n ==> k == i
    ensures -(n as int) <= i < 0 ==> k == n + i
    ensures i > n ==> k == n
    ensures i < -(n as int) ==> k == 0
  {
    if i < 0 then (if n + i < 0 then 0 else n + i) else if i > n then n else i
  }

  /** `s[start:stop]`, with `stop == None` for an omitted upper bound. */
  function Slice<T>(s: seq<T>, start: int, stop: Option<int>): seq<T>
  {
    var a := SliceIndex(start, |s|);
    var b := if stop.None? then |s| else SliceIndex(stop.value, |s|);
    if a <= b then s[a..b] else []
  }

  /** `[f(x) for x in xs]`, built the way a loop appending to a list builds it. */
  function Map<A, B>(f: A -> B, xs: seq<A>): (ys: seq<B>)
    ensures |ys| == |xs|
    ensures forall k :: 0 <= k < |xs| ==> ys[k] == f(xs[k])
  {
    if xs == [] then []
    else
      var n := |xs| - 1;
      assert forall k :: 0 <= k < n ==> xs[..n][k] == xs[k];
      Map(f, xs[..n]) + [f(xs[n])]
  }

  /** A list that starts with the elements of `x` and goes on with those of `y` is `x + y`. */
  lemma {:induction false} Concatenation<T>(s: seq<T>, x: seq<T>, y: seq<T>)
    requires |s| == |x| + |y|
    requires forall k :: 0 <= k < |x| ==> s[k] == x[k]
    requires forall k :: 0 <= k < |y| ==> s[|x| + k] == y[k]
    ensures s == x + y
  {
    forall k | 0 <= k < |s| ensures s[k] == (x + y)[k] {
      if k >= |x| {
        assert s[|x| + (k - |x|)] == y[k - |x|];
      }
    }
  }

  /** A slice holds elements of the list, in the list's order. */
  lemma {:induction false} SliceWithin<T>(s: seq<T>, start: int, stop: Option<int>, le: (T, T) -> bool)
    ensures forall k :: 0 <= k < |Slice(s, start, stop)| ==> Slice(s, start, stop)[k] in s
    ensures SortedBy(s, le) ==> SortedBy(Slice(s, start, stop), le)
  {
    var a := SliceIndex(start, |s|);
    var b := if stop.None? then |s| else SliceIndex(stop.value, |s|);
    if a <= b {
      assert forall k :: 0 <= k < b - a ==> s[a..b][k] == s[a + k];
    }
  }

  /** `le` is total and transitive, so sorting by it is well defined up to ties. */
  ghost predicate TotalPreorder<T(!new)>(le: (T, T) -> bool)
  {
    && (forall a, b :: le(a, b) || le(b, a))
    && (forall a, b, c :: le(a, b) && le(b, c) ==> le(a, c))
  }

  predicate SortedBy<T>(s: seq<T>, le: (T, T) -> bool)
  {
    forall i, j :: 0 <= i < j < |s| ==> le(s[i], s[j])
  }

  /** Inserts `x` after every leading element that is `le` it. */
  function Insert<T>(x: T, s: seq<T>, le: (T, T) -> bool): (r: seq<T>)
    ensures |r| == |s| + 1
    ensures multiset(r) == multiset(s) + multiset{x}
  {
    if s == [] then [x]
    else if le(s[0], x) then
      assert s == [s[0]] + s[1..];
      [s[0]] + Insert(x, s[1..], le)
    else [x] + s
  }

  /** A stable insertion sort by `le`. */
  function SortBy<T>(s: seq<T>, le: (T, T) -> bool): (r: seq<T>)
    ensures |r| == |s|
    ensures multiset(r) == multiset(s)
  {
    if s == [] then []
    else
      assert s == s[..|s| - 1] + [s[|s| - 1]];
      Insert(s[|s| - 1], SortBy(s[..|s| - 1], le), le)
  }

  lemma {:induction false} InsertSorted<T(!new)>(x: T, s: seq<T>, le: (T, T) -> bool)
    requires TotalPreorder(le) && SortedBy(s, le)
    ensures SortedBy(Insert(x, s, le), le)
  {
    if s != [] {
      if le(s[0], x) {
        InsertSorted(x, s[1..], le);
        var t := Insert(x, s[1..], le);
        forall k | 0 <= k < |t| ensures le(s[0], t[k]) {
          assert t[k] in multiset(s[1..]) + multiset{x};
          if t[k] != x {
            assert t[k] in multiset(s[1..]);
            var m :| 0 <= m < |s| - 1 && s[1..][m] == t[k];
            assert s[m + 1] == t[k];
          }
        }
        ConsSorted(s[0], t, le);
      } else {
        assert le(x, s[0]);
        forall k | 0 <= k < |s| ensures le(x, s[k]) {
          if k > 0 {
            assert le(s[0], s[k]);
          }
        }
        ConsSorted(x, s, le);
      }
    }
  }

  /** An element at most every element of a sorted list can go in front of it. */
  lemma {:induction false} ConsSorted<T>(y: T, t: seq<T>, le: (T, T) -> bool)
    requires SortedBy(t, le) && forall k :: 0 <= k < |t| ==> le(y, t[k])
    ensures SortedBy([y] + t, le)
  {
    var r := [y] + t;
    forall i, j | 0 <= i < j < |r| ensures le(r[i], r[j]) {
      assert r[j] == t[j - 1];
      if i > 0 {
        assert r[i] == t[i - 1];
      }
    }
  }

  /** The result of SortBy is ordered by any total preorder. */
  lemma {:induction false} SortBySorted<T(!new)>(s: seq<T>, le: (T, T) -> bool)
    requires TotalPreorder(le)
    ensures SortedBy(SortBy(s, le), le)
  {
    if s != [] {
      SortBySorted(s[..|s| - 1], le);
      InsertSorted(s[|s| - 1], SortBy(s[..|s| - 1], le), le);
    }
  }
}

/** numpy's dot product and mean on vectors of reals. */
module Vectors {

  /** `np.dot(u, w)` for two vectors of one length: `Σ u[i] * w[i]`. */
  function Dot(u: seq<real>, w: seq<real>): real
    requires |u| == |w|
  {
    if u == [] then 0.0 else Dot(u[..|u| - 1], w[..|w| - 1]) + u[|u| - 1] * w[|w| - 1]
  }

  function Sum(s: seq<real>): real
  {
    if s == [] then 0.0 else Sum(s[..|s| - 1]) + s[|s| - 1]
  }

  /** `np.mean`, defined for a non-empty vector. */
  function Mean(s: seq<real>): real
    requires |s| > 0
  {
    Sum(s) / (|s| as real)
  }

  /** The dot product splits over concatenation, pairing each part with its own weights. */
  lemma {:induction false} DotAppend(u: seq<real>, v: seq<real>, w: seq<real>, x: seq<real>)
    requires |u| == |w| && |v| == |x|
    ensures Dot(u + v, w + x) == Dot(u, w) + Dot(v, x)
  {
    if v != [] {
      var n, m := |v| - 1, |x| - 1;
      assert (u + v)[..|u + v| - 1] == u + v[..n];
      assert (w + x)[..|w + x| - 1] == w + x[..m];
      DotAppend(u, v[..n], w, x[..m]);
    } else {
      assert u + v == u && w + x == w;
    }
  }

  /** A vector of zeros dots to zero with any weights. */
  lemma {:induction false} DotZero(u: seq<real>, w: seq<real>)
    requires |u| == |w|
    requires forall j :: 0 <= j < |u| ==> u[j] == 0.0
    ensures Dot(u, w) == 0.0
  {
    if u != [] {
      DotZero(u[..|u| - 1], w[..|w| - 1]);
    }
  }

  /** Moving a block of (value, weight) pairs from the back to the front keeps the sum: only
      the pairing of values with weights matters, not their order. */
  lemma {:induction false} DotRotate(u: seq<real>, v: seq<real>, w: seq<real>, x: seq<real>)
    requires |u| == |w| && |v| == |x|
    ensures Dot(u + v, w + x) == Dot(v + u, x + w)
  {
    DotAppend(u, v, w, x);
    DotAppend(v, u, x, w);
  }

  /** The dot product is linear in its first argument. */
  lemma {:induction false} DotAdd(u: seq<real>, v: seq<real>, s: seq<real>, w: seq<real>)
    requires |u| == |v| == |s| == |w|
    requires forall j :: 0 <= j < |s| ==> s[j] == u[j] + v[j]
    ensures Dot(s, w) == Dot(u, w) + Dot(v, w)
  {
    if u != [] {
      var n := |u| - 1;
      DotAdd(u[..n], v[..n], s[..n], w[..n]);
    }
  }

  /** A sum of `n` values between `lo` and `hi` lies between `n * lo` and `n * hi`. */
  lemma {:induction false} SumBounds(s: seq<real>, lo: real, hi: real)
    requires forall i :: 0 <= i < |s| ==> lo <= s[i] <= hi
    ensures (|s| as real) * lo <= Sum(s) <= (|s| as real) * hi
  {
    if s != [] {
      SumBounds(s[..|s| - 1], lo, hi);
    }
  }

  lemma {:induction false} MeanBounds(s: seq<real>, lo: real, hi: real)
    requires |s| > 0
    requires forall i :: 0 <= i < |s| ==> lo <= s[i] <= hi
    ensures lo <= Mean(s) <= hi
  {
    SumBounds(s, lo, hi);
    var n := |s| as real;
    assert n * lo <= Sum(s) <= n * hi;
    assert Sum(s) / n >= lo by {
      assert Sum(s) / n * n == Sum(s);
    }
    assert Sum(s) / n <= hi by {
      assert Sum(s) / n * n == Sum(s);
    }
  }
}

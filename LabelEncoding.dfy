/** Decoding of bit-encoded boolean labels (convert_label_encoding_to_vector.py). */
module LabelEncoding {
  import opened Arith

  function Pow2(n: nat): (r: nat)
    ensures r >= 1
  {
    if n == 0 then 1 else 2 * Pow2(n - 1)
  }

  /** `(x >> i) & 1` on a Python int: `>>` is floor division by 2^i, which is Dafny's `/`
      for a positive divisor, and `& 1` of the two's complement value is the Euclidean `% 2`. */
  function Bit(x: int, i: nat): (b: nat)
    ensures b <= 1
  {
    (x / Pow2(i)) % 2
  }

  /** label_to_vector: the bits `fieldNum - 1` down to `0` of `code`, most significant first. */
  function LabelToVector(code: int, fieldNum: nat): (v: seq<nat>)
    ensures |v| == fieldNum
    ensures forall j :: 0 <= j < fieldNum ==> v[j] <= 1
  {
    seq(fieldNum, j requires 0 <= j < fieldNum => Bit(code, fieldNum - 1 - j))
  }

  /** The number a most-significant-first bit vector stands for: `Σ v[j] * 2^(|v|-1-j)`. */
  function FromBits(v: seq<int>): int
  {
    if v == [] then 0 else 2 * FromBits(v[..|v| - 1]) + v[|v| - 1]
  }

  predicate IsBitVector(v: seq<int>)
  {
    forall j :: 0 <= j < |v| ==> 0 <= v[j] <= 1
  }

  lemma {:induction false} BitStep(x: int, i: nat)
    ensures Bit(x, i + 1) == Bit(x / 2, i)
  {
    DivDiv(x, 2, Pow2(i));
  }

  /** Widening the window by one bit appends the code's lowest bit and shifts the rest. */
  lemma {:induction false} LabelToVectorStep(x: int, n: nat)
    ensures LabelToVector(x, n + 1) == LabelToVector(x / 2, n) + [x % 2]
  {
    var v, w := LabelToVector(x, n + 1), LabelToVector(x / 2, n) + [x % 2];
    forall j | 0 <= j < n + 1 ensures v[j] == w[j] {
      if j < n {
        BitStep(x, n - 1 - j);
        assert v[j] == Bit(x, (n - 1 - j) + 1);
        assert w[j] == LabelToVector(x / 2, n)[j] == Bit(x / 2, n - 1 - j);
      } else {
        DivModUnique(x, 1, x, 0);
        assert v[j] == Bit(x, 0) == (x / 1) % 2;
      }
    }
  }

  /** Decoding then re-encoding keeps exactly the low `n` bits: `code % 2^n`. */
  lemma {:induction false} LabelToVectorValue(x: int, n: nat)
    ensures FromBits(LabelToVector(x, n)) == x % Pow2(n)
    decreases n
  {
    if n > 0 {
      LabelToVectorStep(x, n - 1);
      LabelToVectorValue(x / 2, n - 1);
      var v := LabelToVector(x, n);
      assert v[..n - 1] == LabelToVector(x / 2, n - 1);
      ModDouble(x, Pow2(n - 1));
    }
  }

  /** Round trip: a code inside the window is recovered from its vector. */
  lemma {:induction false} LabelRoundTrip(code: int, n: nat)
    requires 0 <= code < Pow2(n)
    ensures FromBits(LabelToVector(code, n)) == code
  {
    LabelToVectorValue(code, n);
    DivModUnique(code, Pow2(n), 0, code);
  }

  /** Round trip the other way: encoding a 0/1 vector and decoding it at its own width
      gives the vector back. */
  lemma {:induction false} VectorRoundTrip(v: seq<int>)
    requires IsBitVector(v)
    ensures LabelToVector(FromBits(v), |v|) == v
  {
    if v != [] {
      var w, b := v[..|v| - 1], v[|v| - 1];
      VectorRoundTrip(w);
      HalfOfTwice(FromBits(w), b);
      LabelToVectorStep(FromBits(v), |w|);
      assert v == w + [b];
    }
  }

  /** Bits above the window are ignored: the vector depends only on `code % 2^n`. */
  lemma {:induction false} HighBitsIgnored(code: int, n: nat)
    ensures LabelToVector(code, n) == LabelToVector(code % Pow2(n), n)
  {
    var v := LabelToVector(code, n);
    LabelToVectorValue(code, n);
    VectorRoundTrip(v);
  }

  function Zeros(n: nat): (z: seq<nat>)
  {
    seq(n, _ => 0)
  }

  /** Element-wise sum of two vectors of the same width (numpy `+`). */
  function AddVectors(a: seq<nat>, b: seq<nat>): seq<nat>
    requires |a| == |b|
  {
    seq(|a|, j requires 0 <= j < |a| => a[j] + b[j])
  }

  /** The sum of the decoded vectors of a list of labels, accumulated left to right. */
  function LabelListSum(labels: seq<int>, n: nat): (v: seq<nat>)
    ensures |v| == n
  {
    if labels == [] then Zeros(n)
    else AddVectors(LabelListSum(labels[..|labels| - 1], n), LabelToVector(labels[|labels| - 1], n))
  }

  /** Number of labels in which bit `i` is set. */
  function CountBit(labels: seq<int>, i: nat): (c: nat)
    ensures c <= |labels|
  {
    if labels == [] then 0
    else CountBit(labels[..|labels| - 1], i) + Bit(labels[|labels| - 1], i)
  }

  /** Entry `j` of the summed vector counts the labels with bit `n - 1 - j` set: repeated flags
      add up instead of saturating at 1, and no entry exceeds the number of labels. */
  lemma {:induction false} LabelListCounts(labels: seq<int>, n: nat, j: nat)
    requires j < n
    ensures LabelListSum(labels, n)[j] == CountBit(labels, n - 1 - j)
    ensures LabelListSum(labels, n)[j] <= |labels|
  {
    if labels != [] {
      LabelListCounts(labels[..|labels| - 1], n, j);
    }
  }

  /** Concatenating two code lists adds their vectors. */
  lemma {:induction false} LabelListConcat(a: seq<int>, b: seq<int>, n: nat)
    ensures LabelListSum(a + b, n) == AddVectors(LabelListSum(a, n), LabelListSum(b, n))
  {
    if b == [] {
      assert a + b == a;
    } else {
      var b' := b[..|b| - 1];
      assert (a + b)[..|a + b| - 1] == a + b';
      LabelListConcat(a, b', n);
    }
  }

  /** label_list_to_vector: starts from the zero vector and adds each code's decoded vector. */
  method LabelListToVector(labelList: seq<int>, fieldNum: nat) returns (vec: seq<nat>)
    ensures vec == LabelListSum(labelList, fieldNum)
  {
    vec := Zeros(fieldNum);
    for i := 0 to |labelList|
      invariant vec == LabelListSum(labelList[..i], fieldNum)
    {
      assert labelList[..i + 1][..i] == labelList[..i];
      vec := AddVectors(vec, LabelToVector(labelList[i], fieldNum));
    }
    assert labelList[..|labelList|] == labelList;
  }
}

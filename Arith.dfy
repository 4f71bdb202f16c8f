/** Facts about Dafny's Euclidean division that the bit-level proofs use. For a positive
    divisor Dafny's `/` and `%` coincide with Python's floor division and modulo. */
module Arith {

  lemma {:induction false} MulNonneg(a: int, b: int)
    requires a >= 0 && b >= 0
    ensures a * b >= 0
  {
  }

  /** Quotient and remainder are determined by `x == d * q + r` with `0 <= r < d`. */
  lemma {:induction false} DivModUnique(x: int, d: int, q: int, r: int)
    requires d > 0 && 0 <= r < d && x == d * q + r
    ensures x / d == q && x % d == r
  {
    var q', r' := x / d, x % d;
    assert x == d * q' + r';
    if q' > q {
      var k := q' - q - 1;
      MulNonneg(d, k);
      assert false;
    } else if q' < q {
      var k := q - q' - 1;
      MulNonneg(d, k);
      assert false;
    }
  }

  lemma {:induction false} Distrib(a: int, b: int, c: int)
    ensures a * (b + c) == a * b + a * c
  {
  }

  lemma {:induction false} MulAssoc(a: int, b: int, c: int)
    ensures a * (b * c) == (a * b) * c
  {
  }

  /** Halving twice in a row: `(x / a) / b == x / (a * b)`. */
  lemma {:induction false} DivDiv(x: int, a: int, b: int)
    requires a > 0 && b > 0
    ensures (x / a) / b == x / (a * b)
  {
    var q1, r1 := x / a, x % a;
    var q2, r2 := q1 / b, q1 % b;
    assert x == (a * b) * q2 + (a * r2 + r1) by {
      assert x == a * q1 + r1;
      assert q1 == b * q2 + r2;
      Distrib(a, b * q2, r2);
      MulAssoc(a, b, q2);
    }
    assert 0 <= a * r2 by {
      MulNonneg(a, r2);
    }
    assert a * r2 <= a * b - a by {
      MulNonneg(a, b - 1 - r2);
      Distrib(a, b, -1 - r2);
      Distrib(a, -1, -r2);
    }
    DivModUnique(x, a * b, q2, a * r2 + r1);
  }

  /** Peeling the low bit off a remainder modulo `2 * m`. */
  lemma {:induction false} ModDouble(x: int, m: int)
    requires m > 0
    ensures x % (2 * m) == 2 * ((x / 2) % m) + x % 2
  {
    var h, b := x / 2, x % 2;
    var q, r := h / m, h % m;
    assert x == 2 * m * q + (2 * r + b) by {
      assert x == 2 * h + b;
      assert h == m * q + r;
    }
    DivModUnique(x, 2 * m, q, 2 * r + b);
  }

  /** `(2 * a + b) / 2 == a` and `(2 * a + b) % 2 == b` for a bit `b`. */
  lemma {:induction false} HalfOfTwice(a: int, b: int)
    requires 0 <= b <= 1
    ensures (2 * a + b) / 2 == a && (2 * a + b) % 2 == b
  {
    DivModUnique(2 * a + b, 2, a, b);
  }
}

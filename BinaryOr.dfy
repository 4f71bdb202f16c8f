/** Bitwise OR over a list of lists of integers (reduce_with_binary_or.py). */
module BinaryOr {
  import opened Arith

  function Max(a: int, b: int): int { if a < b then b else a }

  function Abs(x: int): nat { if x < 0 then -x else x }

  /** The two integers whose two's complement is a single repeated bit. */
  predicate IsSign(x: int) { x == 0 || x == -1 }

  lemma {:induction false} HalfMeasure(x: int)
    ensures Abs(x / 2) <= Abs(x)
    ensures !IsSign(x) ==> Abs(x / 2) < Abs(x)
  {
  }

  /** Python's `x | y` on unbounded two's complement integers, one bit at a time: the low bit
      is the larger of the two low bits, the rest is the OR of the halves. */
  function Or(x: int, y: int): int
    decreases Abs(x) + Abs(y)
  {
    if IsSign(x) && IsSign(y) then (if x == -1 || y == -1 then -1 else 0)
    else
      HalfMeasure(x);
      HalfMeasure(y);
      2 * Or(x / 2, y / 2) + Max(x % 2, y % 2)
  }

  /** The OR acts bit by bit: its halves are the OR of the halves, its low bit the OR of the
      low bits. */
  lemma {:induction false} OrStep(x: int, y: int)
    ensures Or(x, y) / 2 == Or(x / 2, y / 2)
    ensures Or(x, y) % 2 == Max(x % 2, y % 2)
  {
    if !(IsSign(x) && IsSign(y)) {
      HalfOfTwice(Or(x / 2, y / 2), Max(x % 2, y % 2));
    }
  }

  /** Two integers with the same half and the same low bit are equal. */
  lemma {:induction false} SameBits(x: int, y: int)
    requires x / 2 == y / 2 && x % 2 == y % 2
    ensures x == y
  {
  }

  lemma {:induction false} OrComm(x: int, y: int)
    ensures Or(x, y) == Or(y, x)
    decreases Abs(x) + Abs(y)
  {
    if !(IsSign(x) && IsSign(y)) {
      HalfMeasure(x);
      HalfMeasure(y);
      OrComm(x / 2, y / 2);
    }
  }

  lemma {:induction false} OrZero(x: int)
    ensures Or(0, x) == x && Or(x, 0) == x
    decreases Abs(x)
  {
    if !IsSign(x) {
      HalfMeasure(x);
      OrZero(x / 2);
      OrStep(0, x);
      OrStep(x, 0);
      SameBits(Or(0, x), x);
      SameBits(Or(x, 0), x);
    }
  }

  lemma {:induction false} OrIdem(x: int)
    ensures Or(x, x) == x
    decreases Abs(x)
  {
    if !IsSign(x) {
      HalfMeasure(x);
      OrIdem(x / 2);
      OrStep(x, x);
      SameBits(Or(x, x), x);
    }
  }

  lemma {:induction false} OrAssoc(x: int, y: int, z: int)
    ensures Or(Or(x, y), z) == Or(x, Or(y, z))
    decreases Abs(x) + Abs(y) + Abs(z)
  {
    if !(IsSign(x) && IsSign(y) && IsSign(z)) {
      HalfMeasure(x);
      HalfMeasure(y);
      HalfMeasure(z);
      OrAssoc(x / 2, y / 2, z / 2);
      OrStep(x, y);
      OrStep(Or(x, y), z);
      OrStep(y, z);
      OrStep(x, Or(y, z));
      SameBits(Or(Or(x, y), z), Or(x, Or(y, z)));
    }
  }

  /** `reduce(lambda x, y: x | y, xs, 0)`: a left fold of `|` starting from 0. */
  function OrAll(xs: seq<int>): int
  {
    if xs == [] then 0 else Or(OrAll(xs[..|xs| - 1]), xs[|xs| - 1])
  }

  /** calculate_binary_or: OR each sublist, then OR the partial results. */
  function CalculateBinaryOr(lists: seq<seq<int>>): int
  {
    OrAll(seq(|lists|, i requires 0 <= i < |lists| => OrAll(lists[i])))
  }

  function Flatten(lists: seq<seq<int>>): seq<int>
  {
    if lists == [] then [] else Flatten(lists[..|lists| - 1]) + lists[|lists| - 1]
  }

  lemma {:induction false} OrAllAppend(a: seq<int>, b: seq<int>)
    ensures OrAll(a + b) == Or(OrAll(a), OrAll(b))
  {
    if b == [] {
      assert a + b == a;
      OrZero(OrAll(a));
    } else {
      var b' := b[..|b| - 1];
      assert (a + b)[..|a + b| - 1] == a + b';
      OrAllAppend(a, b');
      OrAssoc(OrAll(a), OrAll(b'), b[|b| - 1]);
    }
  }

  /** The grouping into sublists does not matter: the result is the OR of the flattened list. */
  lemma {:induction false} CalculateIsFlatOr(lists: seq<seq<int>>)
    ensures CalculateBinaryOr(lists) == OrAll(Flatten(lists))
  {
    if lists != [] {
      var init := lists[..|lists| - 1];
      CalculateIsFlatOr(init);
      var parts := seq(|lists|, i requires 0 <= i < |lists| => OrAll(lists[i]));
      assert parts[..|lists| - 1] == seq(|init|, i requires 0 <= i < |init| => OrAll(init[i]));
      OrAllAppend(Flatten(init), lists[|lists| - 1]);
    }
  }

  /** Every element's bits are contained in the OR of a list that holds it. */
  lemma {:induction false} OrAllAbsorbs(xs: seq<int>, x: int)
    requires x in xs
    ensures Or(x, OrAll(xs)) == OrAll(xs)
  {
    var init, last := xs[..|xs| - 1], xs[|xs| - 1];
    assert xs == init + [last];
    if x == last {
      OrComm(OrAll(init), x);
      OrAssoc(x, x, OrAll(init));
      OrIdem(x);
    } else {
      OrAllAbsorbs(init, x);
      OrAssoc(x, OrAll(init), last);
    }
  }

  /** The OR of a list is below any value that contains every element's bits. */
  lemma {:induction false} OrAllLeast(xs: seq<int>, a: int)
    requires forall k :: 0 <= k < |xs| ==> Or(xs[k], a) == a
    ensures Or(OrAll(xs), a) == a
  {
    if xs == [] {
      OrZero(a);
    } else {
      var init, last := xs[..|xs| - 1], xs[|xs| - 1];
      OrAllLeast(init, a);
      OrAssoc(OrAll(init), last, a);
    }
  }

  /** The OR of a list depends only on which values occur in it: neither order nor
      duplication changes it. */
  lemma {:induction false} OrAllBySet(xs: seq<int>, ys: seq<int>)
    requires forall x :: x in xs <==> x in ys
    ensures OrAll(xs) == OrAll(ys)
  {
    forall k | 0 <= k < |xs| ensures Or(xs[k], OrAll(ys)) == OrAll(ys) {
      OrAllAbsorbs(ys, xs[k]);
    }
    forall k | 0 <= k < |ys| ensures Or(ys[k], OrAll(xs)) == OrAll(xs) {
      OrAllAbsorbs(xs, ys[k]);
    }
    OrAllLeast(xs, OrAll(ys));
    OrAllLeast(ys, OrAll(xs));
    OrComm(OrAll(xs), OrAll(ys));
  }

  /** Every integer of every sublist has its bits in the result. */
  lemma {:induction false} ResultContainsEvery(lists: seq<seq<int>>, i: nat, j: nat)
    requires i < |lists| && j < |lists[i]|
    ensures Or(lists[i][j], CalculateBinaryOr(lists)) == CalculateBinaryOr(lists)
  {
    CalculateIsFlatOr(lists);
    FlattenHas(lists, i, j);
    OrAllAbsorbs(Flatten(lists), lists[i][j]);
  }

  lemma {:induction false} FlattenHas(lists: seq<seq<int>>, i: nat, j: nat)
    requires i < |lists| && j < |lists[i]|
    ensures lists[i][j] in Flatten(lists)
  {
    if i < |lists| - 1 {
      FlattenHas(lists[..|lists| - 1], i, j);
    } else {
      assert lists[i][j] in lists[|lists| - 1];
    }
  }

  lemma {:induction false} FlattenOnly(lists: seq<seq<int>>, x: int)
    requires x in Flatten(lists)
    ensures exists i, j :: 0 <= i < |lists| && 0 <= j < |lists[i]| && lists[i][j] == x
  {
    var init := lists[..|lists| - 1];
    if x in Flatten(init) {
      FlattenOnly(init, x);
      var i, j :| 0 <= i < |init| && 0 <= j < |init[i]| && init[i][j] == x;
      assert lists[i][j] == x;
    } else {
      var last := lists[|lists| - 1];
      var j :| 0 <= j < |last| && last[j] == x;
    }
  }

  /** Regrouping, reordering or repeating integers and sublists leaves the result unchanged,
      as long as the same integers occur; empty sublists contribute nothing. */
  lemma {:induction false} RegroupingInvariant(lists: seq<seq<int>>, lists': seq<seq<int>>)
    requires forall x :: x in Flatten(lists) <==> x in Flatten(lists')
    ensures CalculateBinaryOr(lists) == CalculateBinaryOr(lists')
  {
    CalculateIsFlatOr(lists);
    CalculateIsFlatOr(lists');
    OrAllBySet(Flatten(lists), Flatten(lists'));
  }

  /** An empty sublist contributes nothing. */
  lemma {:induction false} EmptySublistIgnored(lists: seq<seq<int>>)
    ensures CalculateBinaryOr(lists + [[]]) == CalculateBinaryOr(lists)
  {
    assert Flatten(lists + [[]]) == Flatten(lists) + [] by {
      assert (lists + [[]])[..|lists|] == lists;
    }
    RegroupingInvariant(lists + [[]], lists);
  }

  /** The pairwise ORs of the docstring example, one bit at a time. */
  lemma {:induction false} DocExampleBits()
    ensures Or(1, 2) == 3 && Or(3, 4) == 7 && Or(8, 16) == 24 && Or(7, 24) == 31
  {
    OrZero(1);
    OrZero(3);
    assert Or(1, 2) == 2 * Or(0, 1) + 1;
    assert Or(3, 4) == 2 * Or(1, 2) + 1;
    assert Or(2, 4) == 2 * Or(1, 2);
    assert Or(4, 8) == 2 * Or(2, 4);
    assert Or(8, 16) == 2 * Or(4, 8);
    assert Or(1, 6) == 2 * Or(0, 3) + 1;
    assert Or(3, 12) == 2 * Or(1, 6) + 1;
    assert Or(7, 24) == 2 * Or(3, 12) + 1;
  }

  /** The worked example of the docstring: (1 | 2) | 4 | (8 | 16) == 31. */
  lemma {:induction false} DocExample()
    ensures CalculateBinaryOr([[1, 2], [4], [8, 16]]) == 31
  {
    var lists := [[1, 2], [4], [8, 16]];
    DocExampleBits();
    OrZero(1);
    OrZero(4);
    OrZero(8);
    OrZero(3);
    assert OrAll([1, 2]) == 3 by {
      assert [1, 2][..1] == [1];
      assert OrAll([1]) == Or(OrAll([]), 1) by {
        assert [1][..0] == [];
      }
    }
    assert OrAll([4]) == 4 by {
      assert [4][..0] == [];
    }
    assert OrAll([8, 16]) == 24 by {
      assert [8, 16][..1] == [8];
      assert OrAll([8]) == Or(OrAll([]), 8) by {
        assert [8][..0] == [];
      }
    }
    var parts := seq(|lists|, i requires 0 <= i < |lists| => OrAll(lists[i]));
    assert parts == [3, 4, 24];
    assert OrAll([3, 4, 24]) == 31 by {
      assert [3, 4, 24][..2] == [3, 4];
      assert OrAll([3, 4]) == 7 by {
        assert [3, 4][..1] == [3];
        assert OrAll([3]) == Or(OrAll([]), 3) by {
          assert [3][..0] == [];
        }
      }
    }
  }
}

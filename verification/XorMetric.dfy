/**
 * The XOR distance of Kademlia (Maymounkov and Mazieres, section 2.1) and the aligned blocks of
 * ids that buckets cover.  `Shift(x, j)` drops the last `j` binary digits of `x`.
 */
module XorMetric {
  function Xor(a: nat, b: nat): nat
    decreases a + b
  {
    if a == 0 && b == 0 then 0
    else 2 * Xor(a / 2, b / 2) + if a % 2 != b % 2 then 1 else 0
  }

  function Shift(x: nat, j: nat): nat
    decreases j
  {
    if j == 0 then x else Shift(x / 2, j - 1)
  }

  /** `a` followed by `j` binary zeros. */
  function Up(a: nat, j: nat): (r: nat)
    decreases j
  {
    if j == 0 then a else 2 * Up(a, j - 1)
  }

  lemma {:induction false} XorInjective(a: nat, b: nat, c: nat)
    requires Xor(a, c) == Xor(b, c)
    ensures a == b
    decreases a + b + c
  {
    if a + b + c > 0 {
      XorInjective(a / 2, b / 2, c / 2);
    }
  }

  lemma {:induction false} XorOfShifts(a: nat, b: nat, j: nat)
    ensures Shift(Xor(a, b), j) == Xor(Shift(a, j), Shift(b, j))
    decreases j
  {
    if j > 0 {
      assert Xor(a, b) / 2 == Xor(a / 2, b / 2);
      XorOfShifts(a / 2, b / 2, j - 1);
    }
  }

  lemma {:induction false} ShiftOrders(x: nat, y: nat, j: nat)
    requires Shift(x, j) < Shift(y, j)
    ensures x < y
    decreases j
  {
    if j > 0 {
      ShiftOrders(x / 2, y / 2, j - 1);
    }
  }

  lemma {:induction false} ShiftTwice(x: nat, i: nat, j: nat)
    ensures Shift(Shift(x, i), j) == Shift(x, i + j)
    decreases i
  {
    if i > 0 {
      ShiftTwice(x / 2, i - 1, j);
    }
  }

  /** An id is in the block of `a` and `j` exactly when its leading digits are `a`. */
  lemma {:induction false} InBlock(x: nat, a: nat, j: nat)
    ensures Up(a, j) <= x < Up(a + 1, j) <==> Shift(x, j) == a
    decreases j
  {
    if j > 0 {
      InBlock(x / 2, a, j - 1);
    }
  }

  lemma {:induction false} UpIsLinear(a: nat, b: nat, j: nat)
    ensures Up(a + b, j) == Up(a, j) + Up(b, j)
    decreases j
  {
    if j > 0 {
      UpIsLinear(a, b, j - 1);
    }
  }

  lemma {:induction false} UpDouble(a: nat, j: nat)
    ensures Up(2 * a, j) == Up(a, j + 1)
    decreases j
  {
    if j > 0 {
      UpDouble(a, j - 1);
    }
  }

  lemma {:induction false} UpPositive(a: nat, j: nat)
    requires a > 0
    ensures Up(a, j) > 0
    decreases j
  {
    if j > 0 {
      UpPositive(a, j - 1);
    }
  }

  /** The block of ids whose leading digits are `a`, behind which `j` digits follow. */
  ghost predicate IsBlock(start: nat, end: int, a: nat, j: nat) {
    start == Up(a, j) && end == Up(a + 1, j) - 1
  }

  /**
   * XOR with any id keeps apart what two disjoint blocks keep apart: if one id of one block is
   * closer than one id of the other, then every id of the first is closer than every id of the other.
   */
  lemma DisjointBlocksOrdered(a: nat, i: nat, b: nat, j: nat, x: nat, y: nat, x': nat, y': nat, id: nat)
    requires Shift(x, i) == a && Shift(x', i) == a && Shift(y, j) == b && Shift(y', j) == b
    requires i <= j && Shift(a, j - i) != b
    ensures Xor(x, id) < Xor(y, id) <==> Xor(x', id) < Xor(y', id)
    ensures Xor(x, id) != Xor(y, id) && Xor(x', id) != Xor(y', id)
  {
    ShiftTwice(x, i, j - i);
    ShiftTwice(x', i, j - i);
    var p, q := Xor(Shift(a, j - i), Shift(id, j)), Xor(b, Shift(id, j));
    XorOfShifts(x, id, j);
    XorOfShifts(x', id, j);
    XorOfShifts(y, id, j);
    XorOfShifts(y', id, j);
    if p == q {
      XorInjective(Shift(a, j - i), b, Shift(id, j));
      assert false;
    } else if p < q {
      ShiftOrders(Xor(x, id), Xor(y, id), j);
      ShiftOrders(Xor(x', id), Xor(y', id), j);
    } else {
      ShiftOrders(Xor(y, id), Xor(x, id), j);
      ShiftOrders(Xor(y', id), Xor(x', id), j);
    }
  }
}

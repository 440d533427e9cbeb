/**
 * The tree of relative orders that one in-ring broadcast follows.  The starter has order 0
 * and the member that holds order `o` sends to order `o + 2^i` for every `2^i > o`.
 */
module SpanningTree {
  import opened Sums

  /** The number of binary digits of `o`: the least exponent whose power of two exceeds `o`. */
  function BitLength(o: nat): (b: nat)
    ensures o < Pow2(b) && (o > 0 ==> b > 0)
  {
    if o == 0 then 0 else 1 + BitLength(o / 2)
  }

  /** The last `i` binary digits of `o` and `r` are the same. */
  predicate SameLowDigits(o: nat, r: nat, i: nat) {
    i == 0 || (r % 2 == o % 2 && SameLowDigits(o / 2, r / 2, i - 1))
  }

  /** Order `r` is in the subtree of order `o`: it ends in the digits of `o`. */
  predicate InSubtree(o: nat, r: nat) {
    SameLowDigits(o, r, BitLength(o))
  }

  lemma {:induction false} BitLengthIsLeast(o: nat, i: nat)
    requires o < Pow2(i)
    ensures BitLength(o) <= i
    decreases i
  {
    if o > 0 {
      BitLengthIsLeast(o / 2, i - 1);
    }
  }

  lemma {:induction false} BitLengthOfChild(o: nat, i: nat)
    requires o < Pow2(i)
    ensures BitLength(o + Pow2(i)) == i + 1
  {
    BitLengthIsLeast(o + Pow2(i), i + 1);
    if BitLength(o + Pow2(i)) <= i {
      Pow2Monotone(BitLength(o + Pow2(i)), i);
      assert false;
    }
  }

  /** One digit more: the class of `o` splits into the class with next digit 0 and that with 1. */
  lemma {:induction false} ClassSplits(o: nat, r: nat, i: nat)
    requires o < Pow2(i)
    ensures SameLowDigits(o, r, i) <==> SameLowDigits(o, r, i + 1) || SameLowDigits(o + Pow2(i), r, i + 1)
    ensures !(SameLowDigits(o, r, i + 1) && SameLowDigits(o + Pow2(i), r, i + 1))
    decreases i
  {
    if i > 0 {
      ClassSplits(o / 2, r / 2, i - 1);
      assert (o + Pow2(i)) / 2 == o / 2 + Pow2(i - 1);
    }
  }

  /** Two members of one class lie at least a modulus apart. */
  lemma {:induction false} ClassGap(o: nat, r: nat, i: nat)
    requires o < Pow2(i) && r != o && SameLowDigits(o, r, i)
    ensures r >= o + Pow2(i)
    decreases i
  {
    if i > 0 {
      ClassGap(o / 2, r / 2, i - 1);
    }
  }

  lemma {:induction false} OwnClass(o: nat, i: nat)
    ensures SameLowDigits(o, o, i)
    decreases i
  {
    if i > 0 {
      OwnClass(o / 2, i - 1);
    }
  }

  /** 1 when order `r` is in the subtree of order `o`. */
  function LeadsTo(o: nat, r: nat): nat {
    if InSubtree(o, r) then 1 else 0
  }

  /** The rest of the class of `o` is the subtree of its child at `i` and the class one digit longer. */
  lemma FirstChildShares(o: nat, i: nat, r: nat)
    requires o < Pow2(i)
    ensures (if SameLowDigits(o, r, i) && r != o then 1 else 0)
         == LeadsTo(o + Pow2(i), r) + (if SameLowDigits(o, r, i + 1) && r != o then 1 else 0)
  {
    BitLengthOfChild(o, i);
    ClassSplits(o, r, i);
    OwnClass(o, i + 1);
  }

  /** The parent of an order: the order without its leading binary digit. */
  function Parent(m: nat): (p: nat)
    requires m > 0
    ensures p < m
  {
    m - TopDigit(m)
  }

  /** The value of the leading binary digit. */
  function TopDigit(m: nat): (d: nat)
    requires m > 0
    ensures 0 < d <= m
  {
    LeadingDigit(m);
    Pow2(BitLength(m) - 1)
  }

  lemma LeadingDigit(m: nat)
    requires m > 0
    ensures 0 < Pow2(BitLength(m) - 1) <= m < 2 * Pow2(BitLength(m) - 1)
  {
    if m < Pow2(BitLength(m) - 1) {
      BitLengthIsLeast(m, BitLength(m) - 1);
      assert false;
    }
  }

  lemma {:induction false} ParentOfChild(o: nat, i: nat)
    requires o < Pow2(i)
    ensures Parent(o + Pow2(i)) == o
  {
    var m := o + Pow2(i);
    BitLengthOfChild(o, i);
    assert BitLength(m) - 1 == i;
    assert TopDigit(m) == Pow2(i);
  }

  /** The number of hops from the starter to order `m`. */
  function Depth(m: nat): nat {
    if m == 0 then 0 else 1 + Depth(Parent(m))
  }

  /** Every order below `n` is reached within as many hops as `n - 1` has binary digits. */
  lemma {:induction false} DepthIsLogarithmic(m: nat, n: nat)
    requires m < n
    ensures Depth(m) <= BitLength(m) <= BitLength(n - 1)
    decreases m
  {
    BitLengthIsLeast(m, BitLength(n - 1));
    if m > 0 {
      LeadingDigit(m);
      DepthIsLogarithmic(Parent(m), m);
      BitLengthIsLeast(Parent(m), BitLength(m) - 1);
    }
  }
}

/** Sums of a weight over a sequence, used to count messages, and powers of two. */
module Sums {

  function Sum<T>(s: seq<T>, f: T -> nat): nat {
    if s == [] then 0 else f(s[0]) + Sum(s[1..], f)
  }

  lemma {:induction false} SumConcat<T>(a: seq<T>, b: seq<T>, f: T -> nat)
    ensures Sum(a + b, f) == Sum(a, f) + Sum(b, f)
  {
    if a == [] {
      assert a + b == b;
    } else {
      assert (a + b)[1..] == a[1..] + b;
      SumConcat(a[1..], b, f);
    }
  }

  lemma SumSingle<T>(x: T, f: T -> nat)
    ensures Sum([x], f) == f(x)
  {
    assert [x][1..] == [];
  }

  /** Taking the element at `i` out of the sequence takes its weight out of the sum. */
  lemma SumWithout<T>(s: seq<T>, i: nat, f: T -> nat)
    requires i < |s|
    ensures Sum(s, f) == Sum(s[..i] + s[i + 1..], f) + f(s[i])
  {
    var a, x, b := s[..i], s[i], s[i + 1..];
    assert s == a + ([x] + b);
    SumMiddle(a, x, b, f);
  }

  lemma SumMiddle<T>(a: seq<T>, x: T, b: seq<T>, f: T -> nat)
    ensures Sum(a + ([x] + b), f) == Sum(a + b, f) + f(x)
  {
    SumConcat(a, [x] + b, f);
    SumConcat([x], b, f);
    SumSingle(x, f);
    SumConcat(a, b, f);
  }

  lemma {:induction false} SumEqual<T>(s: seq<T>, f: T -> nat, g: T -> nat)
    requires forall x :: x in s ==> f(x) == g(x)
    ensures Sum(s, f) == Sum(s, g)
  {
    if s != [] {
      SumEqual(s[1..], f, g);
    }
  }

  lemma {:induction false} SumAdds<T>(s: seq<T>, f: T -> nat, g: T -> nat, h: T -> nat)
    requires forall x :: x in s ==> f(x) == g(x) + h(x)
    ensures Sum(s, f) == Sum(s, g) + Sum(s, h)
  {
    if s != [] {
      SumAdds(s[1..], f, g, h);
    }
  }

  lemma {:induction false} SumAtLeast<T>(s: seq<T>, f: T -> nat, g: T -> nat)
    requires forall x :: x in s ==> f(x) >= g(x)
    ensures Sum(s, f) >= Sum(s, g)
  {
    if s != [] {
      SumAtLeast(s[1..], f, g);
    }
  }

  lemma {:induction false} SumZero<T>(s: seq<T>, f: T -> nat)
    requires forall x :: x in s ==> f(x) == 0
    ensures Sum(s, f) == 0
  {
    if s != [] {
      SumZero(s[1..], f);
    }
  }

  /** A positive sum has a positive summand. */
  lemma {:induction false} SumWitness<T>(s: seq<T>, f: T -> nat) returns (i: nat)
    requires Sum(s, f) > 0
    ensures i < |s| && f(s[i]) > 0
  {
    if f(s[0]) > 0 {
      i := 0;
    } else {
      var j := SumWitness(s[1..], f);
      i := j + 1;
    }
  }

  lemma {:induction false} SumHasSummand<T>(s: seq<T>, i: nat, f: T -> nat)
    requires i < |s|
    ensures Sum(s, f) >= f(s[i])
  {
    SumWithout(s, i, f);
  }

  function Pow2(i: nat): (p: nat)
    ensures p > i
  {
    if i == 0 then 1 else 2 * Pow2(i - 1)
  }

  lemma {:induction false} Pow2Monotone(i: nat, j: nat)
    requires i <= j
    ensures Pow2(i) <= Pow2(j)
    decreases j
  {
    if i < j {
      Pow2Monotone(i, j - 1);
    }
  }
}

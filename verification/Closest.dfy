/**
 * What the distance is, digit by digit, and what the list of neighbours holds: nodes of the table,
 * closest first, none of the others being closer.
 */
module Closest {
  import opened Options
  import opened XorMetric
  import opened Sorting
  import opened Buckets
  import opened BucketTable
  import opened Neighbours
  import opened RoutingTables

  /** The binary digit of `x` with `i` digits behind it. */
  function Bit(x: nat, i: nat): nat {
    Shift(x, i) % 2
  }

  /** The distance has a one exactly where the two ids differ. */
  lemma {:induction false} XorBits(a: nat, b: nat, i: nat)
    ensures Bit(Xor(a, b), i) == if Bit(a, i) == Bit(b, i) then 0 else 1
  {
    XorOfShifts(a, b, i);
    var x, y := Shift(a, i), Shift(b, i);
    if x + y > 0 {
      assert Xor(x, y) == 2 * Xor(x / 2, y / 2) + if x % 2 != y % 2 then 1 else 0;
    }
  }

  lemma {:induction false} ShiftIsDivision(x: nat)
    ensures Shift(x, 0) == x && Shift(x, 1) == x / 2 && Shift(x, 3) == x / 8
  {
    assert x / 2 / 2 / 2 == x / 8;
    assert Shift(x, 3) == Shift(x / 2, 2) == Shift(x / 2 / 2, 1);
  }

  /** It is a distance: zero for one id only, the same both ways. */
  lemma {:induction false} XorIsDistance(a: nat, b: nat)
    ensures Xor(a, b) == 0 <==> a == b
    ensures Xor(a, b) == Xor(b, a)
    decreases a + b
  {
    if a + b > 0 {
      XorIsDistance(a / 2, b / 2);
    }
  }

  lemma MoreThanTaken(all: seq<nat>, k: nat, n: nat)
    requires n in all && n !in Take(all, k)
    ensures k < |all| && exists j :: k <= j < |all| && all[j] == n
  {
    var r := Take(all, k);
    assert forall i :: 0 <= i < |r| ==> r[i] == all[i] && r[i] in r;
    var j :| 0 <= j < |all| && all[j] == n;
  }

  /**
   * The neighbours: as many nodes of the table as were asked for, or all of them, each once and
   * closest first; a node that is left out is farther away than all of them.
   */
  lemma NeighboursAreClosest(buckets: seq<Bucket>, local: nat, id: nat, k: nat)
    requires TableOk(buckets, local)
    ensures var r := Take(SortBy(AllNodes(buckets), DistanceTo(id)), k);
            && |r| <= k && (forall n :: n in r ==> Stored(buckets, n))
            && (forall i, j :: 0 <= i < j < |r| ==> Xor(r[i], id) < Xor(r[j], id))
            && (forall n :: Stored(buckets, n) && n !in r ==> |r| == k && forall i :: 0 <= i < |r| ==> Xor(r[i], id) < Xor(n, id))
  {
    var all := SortBy(AllNodes(buckets), DistanceTo(id));
    var r := Take(all, k);
    BucketOrderIsDistanceOrder(buckets, local, id);
    SortSorts(AllNodes(buckets), DistanceTo(id));
    forall n ensures n in all <==> Stored(buckets, n) {
      AllNodesStored(buckets, n);
    }
    forall n | Stored(buckets, n) && n !in r ensures |r| == k && forall i :: 0 <= i < |r| ==> Xor(r[i], id) < Xor(n, id) {
      MoreThanTaken(all, k, n);
      var j :| k <= j < |all| && all[j] == n;
      forall i | 0 <= i < |r| ensures Xor(r[i], id) < Xor(n, id) {
        assert DistanceTo(id)(all[i]) < DistanceTo(id)(all[j]);
      }
    }
    forall i, j | 0 <= i < j < |r| ensures Xor(r[i], id) < Xor(r[j], id) {
      assert DistanceTo(id)(all[i]) < DistanceTo(id)(all[j]);
    }
  }
}

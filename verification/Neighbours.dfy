/**
 * The nodes closest to an id: walking the buckets by the distance of their midpoints gives exactly
 * the nodes that sorting the whole table by distance gives.
 */
module Neighbours {
  import opened Options
  import opened XorMetric
  import opened Sorting
  import opened Buckets
  import opened BucketTable

  function DistanceTo(id: nat): nat -> nat {
    (n: nat) => Xor(n, id)
  }

  function MidDistance(id: nat): Bucket -> nat {
    (b: Bucket) => if Midpoint(b) >= 0 then Xor(Midpoint(b), id) else 0
  }

  /** All nodes of the table, bucket by bucket. */
  function AllNodes(buckets: seq<Bucket>): seq<nat> {
    if buckets == [] then [] else buckets[0].nodes + AllNodes(buckets[1..])
  }

  /** The nodes of the buckets, each bucket sorted by distance. */
  function SortedEach(buckets: seq<Bucket>, id: nat): seq<nat> {
    if buckets == [] then [] else SortBy(buckets[0].nodes, DistanceTo(id)) + SortedEach(buckets[1..], id)
  }

  lemma {:induction false} AllNodesStored(buckets: seq<Bucket>, n: nat)
    ensures n in AllNodes(buckets) <==> Stored(buckets, n)
    decreases |buckets|
  {
    if buckets != [] {
      AllNodesStored(buckets[1..], n);
      if i :| 0 <= i < |buckets| && n in buckets[i].nodes {
        if i > 0 {
          assert n in buckets[1..][i - 1].nodes;
        }
      }
      if i :| 0 <= i < |buckets[1..]| && n in buckets[1..][i].nodes {
        assert n in buckets[i + 1].nodes;
      }
    }
  }

  /** Two buckets that cover disjoint ranges of ids. */
  ghost predicate Apart(b: Bucket, c: Bucket) {
    b.end < c.start || c.end < b.start
  }

  ghost predicate AllApart(buckets: seq<Bucket>) {
    && (forall i :: 0 <= i < |buckets| ==> BucketOk(buckets[i]))
    && (forall i, j :: 0 <= i < j < |buckets| ==> Apart(buckets[i], buckets[j]))
  }

  lemma TableIsApart(buckets: seq<Bucket>, local: nat)
    requires TableOk(buckets, local)
    ensures AllApart(buckets)
  {
    forall i, j | 0 <= i < j < |buckets| ensures Apart(buckets[i], buckets[j]) {
      EarlierEndsLower(buckets, local, i, j);
    }
  }

  /** The ids in the range of the bucket are the ids that start with the digits of `a`. */
  ghost predicate StartsWith(b: Bucket, a: nat, j: nat) {
    forall x: nat :: InRange(b, x) <==> Shift(x, j) == a
  }

  lemma BlockOf(b: Bucket) returns (a: nat, j: nat)
    requires BucketOk(b)
    ensures StartsWith(b, a, j)
  {
    a, j :| j <= ID_BITS && IsBlock(b.start, b.end, a, j);
    BlockStartsWith(b, a, j);
  }

  lemma BlockStartsWith(b: Bucket, a: nat, j: nat)
    requires IsBlock(b.start, b.end, a, j)
    ensures StartsWith(b, a, j)
  {
    forall x: nat ensures InRange(b, x) <==> Shift(x, j) == a {
      InBlock(x, a, j);
    }
  }

  lemma MidInRange(b: Bucket)
    requires b.start <= b.end
    ensures InRange(b, Midpoint(b))
  {
  }

  lemma BlocksDiffer(b: Bucket, a: nat, i: nat, c: Bucket, d: nat, j: nat)
    requires b.start <= b.end && Apart(b, c) && i <= j
    requires StartsWith(b, a, i) && StartsWith(c, d, j)
    ensures Shift(a, j - i) != d
  {
    assert InRange(b, b.start);
    ShiftTwice(b.start, i, j - i);
    assert !InRange(c, b.start);
  }

  /** For two disjoint buckets any one id of each decides which bucket is closer, with all its ids. */
  lemma OnePairDecides(b: Bucket, c: Bucket, id: nat, x: nat, y: nat, x': nat, y': nat)
    requires BucketOk(b) && BucketOk(c) && Apart(b, c)
    requires InRange(b, x) && InRange(c, y) && InRange(b, x') && InRange(c, y')
    ensures Xor(x, id) < Xor(y, id) <==> Xor(x', id) < Xor(y', id)
    ensures Xor(x, id) != Xor(y, id) && Xor(x', id) != Xor(y', id)
  {
    var a, i := BlockOf(b);
    var d, j := BlockOf(c);
    if i <= j {
      BlocksDiffer(b, a, i, c, d, j);
      DisjointBlocksOrdered(a, i, d, j, x, y, x', y', id);
    } else {
      BlocksDiffer(c, d, j, b, a, i);
      DisjointBlocksOrdered(d, j, a, i, y, x, y', x', id);
    }
  }

  /** Of two disjoint buckets one is closer to `id`, with all its ids, and its midpoint says so. */
  lemma MidpointDecides(b: Bucket, c: Bucket, id: nat, x: nat, y: nat)
    requires BucketOk(b) && BucketOk(c) && Apart(b, c) && InRange(b, x) && InRange(c, y)
    ensures MidDistance(id)(b) != MidDistance(id)(c)
    ensures MidDistance(id)(b) < MidDistance(id)(c) <==> Xor(x, id) < Xor(y, id)
    ensures Xor(x, id) != Xor(y, id)
  {
    MidInRange(b);
    MidInRange(c);
    OnePairDecides(b, c, id, Midpoint(b), Midpoint(c), x, y);
  }

  /** Every node in `s` is closer to `id` than every node in `t`. */
  ghost predicate AllCloser(s: seq<nat>, t: seq<nat>, id: nat) {
    forall x, y :: x in s && y in t ==> Xor(x, id) < Xor(y, id)
  }

  lemma AscendingConcat(s: seq<nat>, t: seq<nat>, id: nat)
    requires StrictlyAscending(s, DistanceTo(id)) && StrictlyAscending(t, DistanceTo(id)) && AllCloser(s, t, id)
    ensures StrictlyAscending(s + t, DistanceTo(id))
  {
    var r, key := s + t, DistanceTo(id);
    forall i, j | 0 <= i < j < |r| ensures key(r[i]) < key(r[j]) {
      if i < |s| <= j {
        assert r[i] in s && r[j] in t;
      }
    }
  }

  lemma BucketSortsStrictly(b: Bucket, id: nat)
    requires BucketOk(b)
    ensures StrictlyAscending(SortBy(b.nodes, DistanceTo(id)), DistanceTo(id))
    ensures SameMembers(SortBy(b.nodes, DistanceTo(id)), b.nodes)
  {
    forall x, y | x in b.nodes && y in b.nodes && DistanceTo(id)(x) == DistanceTo(id)(y) ensures x == y {
      XorInjective(x, y, id);
    }
    SortStrictly(b.nodes, DistanceTo(id));
  }

  ghost predicate SortedByMidpoint(buckets: seq<Bucket>, id: nat) {
    AllApart(buckets) && Ascending(buckets, MidDistance(id))
  }

  lemma SortedByMidpointTail(buckets: seq<Bucket>, id: nat)
    requires SortedByMidpoint(buckets, id) && buckets != []
    ensures SortedByMidpoint(buckets[1..], id)
  {
  }

  lemma {:induction false} SortedEachMembers(buckets: seq<Bucket>, id: nat, n: nat)
    requires AllApart(buckets)
    ensures n in SortedEach(buckets, id) <==> Stored(buckets, n)
    decreases |buckets|
  {
    if buckets != [] {
      assert AllApart(buckets[1..]);
      SortedEachMembers(buckets[1..], id, n);
      BucketSortsStrictly(buckets[0], id);
      if i :| 0 <= i < |buckets| && n in buckets[i].nodes {
        if i > 0 {
          assert n in buckets[1..][i - 1].nodes;
        }
      }
      if i :| 0 <= i < |buckets[1..]| && n in buckets[1..][i].nodes {
        assert n in buckets[i + 1].nodes;
      }
    }
  }

  /** With the buckets sorted by midpoint, the first bucket's nodes come before all others. */
  lemma FirstBucketCloser(buckets: seq<Bucket>, id: nat)
    requires SortedByMidpoint(buckets, id) && buckets != []
    ensures AllCloser(SortBy(buckets[0].nodes, DistanceTo(id)), SortedEach(buckets[1..], id), id)
  {
    BucketSortsStrictly(buckets[0], id);
    forall x, y | x in SortBy(buckets[0].nodes, DistanceTo(id)) && y in SortedEach(buckets[1..], id)
      ensures Xor(x, id) < Xor(y, id)
    {
      assert AllApart(buckets[1..]);
      SortedEachMembers(buckets[1..], id, y);
      var i :| 0 <= i < |buckets[1..]| && y in buckets[1..][i].nodes;
      assert Apart(buckets[0], buckets[i + 1]);
      MidpointDecides(buckets[0], buckets[i + 1], id, x, y);
    }
  }

  lemma {:induction false} SortedEachAscends(buckets: seq<Bucket>, id: nat)
    requires SortedByMidpoint(buckets, id)
    ensures StrictlyAscending(SortedEach(buckets, id), DistanceTo(id))
    decreases |buckets|
  {
    if buckets != [] {
      SortedByMidpointTail(buckets, id);
      SortedEachAscends(buckets[1..], id);
      BucketSortsStrictly(buckets[0], id);
      FirstBucketCloser(buckets, id);
      AscendingConcat(SortBy(buckets[0].nodes, DistanceTo(id)), SortedEach(buckets[1..], id), id);
    }
  }

  lemma NoDuplicatesConcat(s: seq<nat>, t: seq<nat>)
    requires NoDuplicates(s) && NoDuplicates(t) && forall x :: x in s ==> x !in t
    ensures NoDuplicates(s + t)
  {
    forall i, j | 0 <= i < j < |s + t| ensures (s + t)[i] != (s + t)[j] {
      if i < |s| <= j {
        assert (s + t)[i] in s && (s + t)[j] in t;
      }
    }
  }

  lemma NotInBoth(b: Bucket, c: Bucket, x: nat)
    requires BucketOk(b) && BucketOk(c) && Apart(b, c) && x in b.nodes
    ensures x !in c.nodes
  {
    assert InRange(b, x);
  }

  lemma {:induction false} AllNodesDistinct(buckets: seq<Bucket>)
    requires AllApart(buckets)
    ensures NoDuplicates(AllNodes(buckets))
    decreases |buckets|
  {
    if buckets != [] {
      assert AllApart(buckets[1..]);
      AllNodesDistinct(buckets[1..]);
      forall x | x in buckets[0].nodes ensures x !in AllNodes(buckets[1..]) {
        AllNodesStored(buckets[1..], x);
        if i :| 0 <= i < |buckets[1..]| && x in buckets[1..][i].nodes {
          NotInBoth(buckets[0], buckets[i + 1], x);
        }
      }
      NoDuplicatesConcat(buckets[0].nodes, AllNodes(buckets[1..]));
    }
  }

  lemma MidDistancesDiffer(buckets: seq<Bucket>, local: nat, id: nat)
    requires TableOk(buckets, local)
    ensures forall b, c :: b in buckets && c in buckets && MidDistance(id)(b) == MidDistance(id)(c) ==> b == c
  {
    TableIsApart(buckets, local);
    var key := MidDistance(id);
    forall b, c | b in buckets && c in buckets && key(b) == key(c) ensures b == c {
      var i :| 0 <= i < |buckets| && buckets[i] == b;
      var j :| 0 <= j < |buckets| && buckets[j] == c;
      if i != j {
        assert Apart(buckets[if i < j then i else j], buckets[if i < j then j else i]);
        assert BucketOk(b) && BucketOk(c);
        MidInRange(b);
        MidInRange(c);
        MidpointDecides(b, c, id, Midpoint(b), Midpoint(c));
      }
    }
  }

  lemma SameBucketsApart(buckets: seq<Bucket>, sorted: seq<Bucket>)
    requires AllApart(buckets) && SameMembers(sorted, buckets) && NoDuplicates(sorted)
    ensures AllApart(sorted)
  {
    forall i | 0 <= i < |sorted| ensures BucketOk(sorted[i]) {
      assert sorted[i] in sorted;
    }
    forall i, j | 0 <= i < j < |sorted| ensures Apart(sorted[i], sorted[j]) {
      assert sorted[i] in buckets && sorted[j] in buckets;
      var p :| 0 <= p < |buckets| && buckets[p] == sorted[i];
      var q :| 0 <= q < |buckets| && buckets[q] == sorted[j];
      assert p != q;
      assert Apart(buckets[if p < q then p else q], buckets[if p < q then q else p]);
    }
  }

  lemma SameBucketsStore(buckets: seq<Bucket>, sorted: seq<Bucket>, n: nat)
    requires SameMembers(sorted, buckets) && Stored(sorted, n)
    ensures Stored(buckets, n)
  {
    var i :| 0 <= i < |sorted| && n in sorted[i].nodes;
    assert sorted[i] in buckets;
    var p :| 0 <= p < |buckets| && buckets[p] == sorted[i];
    assert n in buckets[p].nodes;
  }

  lemma SortKeepsApart(buckets: seq<Bucket>, local: nat, id: nat)
    requires TableOk(buckets, local)
    ensures SortedByMidpoint(SortBy(buckets, MidDistance(id)), id)
    ensures forall n :: Stored(SortBy(buckets, MidDistance(id)), n) <==> Stored(buckets, n)
  {
    var key := MidDistance(id);
    var sorted := SortBy(buckets, key);
    TableIsApart(buckets, local);
    DifferentBuckets(buckets, local);
    MidDistancesDiffer(buckets, local, id);
    SortStrictly(buckets, key);
    StrictIsDistinct(sorted, key);
    SameBucketsApart(buckets, sorted);
    forall n ensures Stored(sorted, n) <==> Stored(buckets, n) {
      if Stored(sorted, n) {
        SameBucketsStore(buckets, sorted, n);
      }
      if Stored(buckets, n) {
        SameBucketsStore(sorted, buckets, n);
      }
    }
  }

  lemma StrictIsDistinct(s: seq<Bucket>, key: Bucket -> nat)
    requires StrictlyAscending(s, key)
    ensures NoDuplicates(s) && Ascending(s, key)
  {
    forall i, j | 0 <= i < j < |s| ensures s[i] != s[j] && key(s[i]) <= key(s[j]) {
      assert key(s[i]) < key(s[j]);
    }
  }

  lemma DifferentBuckets(buckets: seq<Bucket>, local: nat)
    requires TableOk(buckets, local)
    ensures NoDuplicates(buckets)
  {
    forall i, j | 0 <= i < j < |buckets| ensures buckets[i] != buckets[j] {
      EarlierEndsLower(buckets, local, i, j);
      assert BucketOk(buckets[i]);
    }
  }

  /** Bucket by bucket in the order of midpoints is all nodes in the order of distance. */
  lemma BucketOrderIsDistanceOrder(buckets: seq<Bucket>, local: nat, id: nat)
    requires TableOk(buckets, local)
    ensures SortedEach(SortBy(buckets, MidDistance(id)), id) == SortBy(AllNodes(buckets), DistanceTo(id))
    ensures StrictlyAscending(SortBy(AllNodes(buckets), DistanceTo(id)), DistanceTo(id))
  {
    var sorted, all, key := SortBy(buckets, MidDistance(id)), AllNodes(buckets), DistanceTo(id);
    SortKeepsApart(buckets, local, id);
    SortedEachAscends(sorted, id);
    TableIsApart(buckets, local);
    AllNodesDistinct(buckets);
    forall x, y | x in all && y in all && key(x) == key(y) ensures x == y {
      XorInjective(x, y, id);
    }
    SortStrictly(all, key);
    forall n: nat ensures n in SortedEach(sorted, id) <==> n in SortBy(all, key) {
      SortedEachMembers(sorted, id, n);
      AllNodesStored(buckets, n);
    }
    AscendingIsUnique(SortedEach(sorted, id), SortBy(all, key), key);
  }
}

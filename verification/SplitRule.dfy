/**
 * When adding a node splits a bucket and when it is refused, said of the ids: a full bucket is kept
 * whole exactly when it does not cover the local node and its ids share a prefix whose length is a
 * multiple of eight.
 */
module SplitRule {
  import opened Options
  import opened XorMetric
  import opened Sorting
  import opened Buckets
  import opened BucketTable

  /** The ids agree in their first `d` binary digits, and not in one more. */
  ghost predicate SharesExactly(nodes: seq<nat>, d: nat) {
    d < 256 && SharePrefix(nodes, d) && !SharePrefix(nodes, d + 1)
  }

  lemma IdsFit(buckets: seq<Bucket>, local: nat, i: nat)
    requires TableOk(buckets, local) && i < |buckets|
    ensures forall n :: n in buckets[i].nodes ==> n < Up(1, ID_BITS)
  {
    if i < |buckets| - 1 {
      EarlierEndsLower(buckets, local, i, |buckets| - 1);
      assert BucketOk(buckets[|buckets| - 1]);
    }
  }

  /** The shared prefix is what the loop over prefix lengths finds. */
  lemma PrefixIsDepth(nodes: seq<nat>, d: nat)
    requires |nodes| >= 3 && NoDuplicates(nodes) && SharesExactly(nodes, d)
    ensures Depth(nodes) == d
  {
    ThreeDiffer(nodes);
    assert d != ID_BITS - 1;
    forall e | 0 <= e <= d ensures SharePrefix(nodes, e) {
      SharePrefixShorter(nodes, d, e);
    }
    DepthFound(nodes, 0, d);
  }

  lemma SharedLength(buckets: seq<Bucket>, local: nat, i: nat) returns (d: nat)
    requires TableOk(buckets, local) && i < |buckets| && |buckets[i].nodes| >= 3
    ensures SharesExactly(buckets[i].nodes, d) && d == Depth(buckets[i].nodes)
  {
    IdsFit(buckets, local, i);
    DepthIsSharedPrefix(buckets[i].nodes);
    d := Depth(buckets[i].nodes);
  }

  /** The bucket of `id` is full without it. */
  ghost predicate FullWithout(b: Bucket, id: nat) {
    b.start <= id < b.end && |b.nodes| == 16 && id !in b.nodes
  }

  /** It may not be split: it does not cover the local node, and the shared prefix is whole bytes long. */
  ghost predicate KeptWhole(b: Bucket, local: nat) {
    !(b.start <= local <= b.end) && exists d: nat :: SharesExactly(b.nodes, d) && d % 8 == 0
  }

  lemma KeptWholeIff(buckets: seq<Bucket>, local: nat, i: nat)
    requires TableOk(buckets, local) && i < |buckets| && |buckets[i].nodes| == 16
    ensures KeptWhole(buckets[i], local) <==> !MaySplit(buckets[i], local)
  {
    var d := SharedLength(buckets, local, i);
    forall e | SharesExactly(buckets[i].nodes, e) ensures e == d {
      PrefixIsDepth(buckets[i].nodes, e);
    }
  }

  lemma FoundFull(buckets: seq<Bucket>, local: nat, id: nat, i: nat)
    requires TableOk(buckets, local) && id <= MAX_ID && i < |buckets| && FullWithout(buckets[i], id)
    ensures Lookup(buckets, id) == Some(i) && AddToBucket(buckets[i], id) == (buckets[i], Some(buckets[i].nodes[0]))
  {
    LookupReaches(buckets, local, id, 0, i);
  }

  /** A full bucket that is kept whole refuses the newcomer: nothing changes, and its oldest node is named. */
  lemma KeptWholeRefuses(buckets: seq<Bucket>, local: nat, id: nat, i: nat)
    requires TableOk(buckets, local) && id <= MAX_ID && i < |buckets|
    requires FullWithout(buckets[i], id) && KeptWhole(buckets[i], local)
    ensures AddNode(buckets, local, id) == (buckets, Evict(buckets[i].nodes[0]))
  {
    FoundFull(buckets, local, id, i);
    KeptWholeIff(buckets, local, i);
  }

  /** Any other full bucket is split, and the node is added to the table with the halves. */
  lemma OtherwiseSplits(buckets: seq<Bucket>, local: nat, id: nat, i: nat)
    requires TableOk(buckets, local) && id <= MAX_ID && i < |buckets|
    requires FullWithout(buckets[i], id) && !KeptWhole(buckets[i], local)
    ensures TableOk(SplitAt(buckets, i), local)
    ensures AddNode(buckets, local, id) == AddNode(SplitAt(buckets, i), local, id)
  {
    FoundFull(buckets, local, id, i);
    KeptWholeIff(buckets, local, i);
    FoundFullIsWide(buckets, local, id);
    SplitOk(buckets, local, i);
  }

  /** A newcomer is refused only by a full bucket that is kept whole, after however many splits. */
  lemma {:induction false} RefusedByKeptWhole(buckets: seq<Bucket>, local: nat, id: nat) returns (i: nat)
    requires TableOk(buckets, local) && id <= MAX_ID && AddNode(buckets, local, id).1.Evict?
    ensures var (t, outcome) := AddNode(buckets, local, id);
            i < |t| && FullWithout(t[i], id) && KeptWhole(t[i], local) && outcome == Evict(t[i].nodes[0])
    decreases Width(buckets, id)
  {
    i := Lookup(buckets, id).value;
    AddToBucketOk(buckets[i], id);
    if MaySplit(buckets[i], local) {
      FoundFullIsWide(buckets, local, id);
      SplitOk(buckets, local, i);
      SplitNarrows(buckets, local, id);
      i := RefusedByKeptWhole(SplitAt(buckets, i), local, id);
    } else {
      KeptWholeIff(buckets, local, i);
    }
  }

  /** A node that the bucket has, or has room for, goes to its tail. */
  lemma RoomAdds(buckets: seq<Bucket>, local: nat, id: nat, i: nat)
    requires TableOk(buckets, local) && id <= MAX_ID && i < |buckets|
    requires buckets[i].start <= id < buckets[i].end && (id in buckets[i].nodes || |buckets[i].nodes| < 16)
    ensures AddNode(buckets, local, id).1 == Added
    ensures AddNode(buckets, local, id).0 == buckets[i := buckets[i].(nodes := Remove(buckets[i].nodes, id) + [id])]
  {
    LookupReaches(buckets, local, id, 0, i);
    if id !in buckets[i].nodes {
      RemoveAbsent(buckets[i].nodes, id);
    }
  }

  lemma {:induction false} RemoveAbsent(s: seq<nat>, x: nat)
    requires x !in s
    ensures Remove(s, x) == s
  {
    if s != [] {
      RemoveAbsent(s[1..], x);
    }
  }
}

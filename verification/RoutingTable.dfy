/** k-buckets and the routing table as objects that are updated in place. */
module RoutingTables {
  import opened Options
  import opened XorMetric
  import opened Sorting
  import opened Buckets
  import opened BucketTable
  import opened Neighbours

  lemma {:induction false} WithinSnoc(s: seq<nat>, x: nat, lo: int, hi: int)
    ensures Within(s + [x], lo, hi) == if lo <= x <= hi then Within(s, lo, hi) + [x] else Within(s, lo, hi)
    decreases |s|
  {
    if s == [] {
      assert s + [x] == [x] && [x][1..] == [];
    } else {
      assert (s + [x])[0] == s[0] && (s + [x])[1..] == s[1..] + [x];
      WithinSnoc(s[1..], x, lo, hi);
    }
  }

  class KBucket {
    const start: nat
    const end: int
    var nodes: seq<nat>
    var cache: seq<nat>

    function Contents(): Bucket
      reads this
    {
      Bucket(start, end, nodes, cache)
    }

    constructor (start: nat, end: int)
      ensures Contents() == Bucket(start, end, [], [])
    {
      this.start, this.end := start, end;
      nodes, cache := [], [];
    }

    method AddNode(id: nat) returns (evict: Option<nat>)
      modifies this
      ensures (Contents(), evict) == AddToBucket(old(Contents()), id)
    {
      if id in nodes {
        nodes := Remove(nodes, id);
        nodes := nodes + [id];
        evict := None;
      } else if |nodes| < K_BUCKET_SIZE {
        nodes := nodes + [id];
        evict := None;
      } else {
        evict := Some(nodes[0]);
      }
    }

    method RemoveNode(id: nat)
      modifies this
      ensures Contents() == old(Contents()).(nodes := Remove(old(nodes), id))
    {
      if id !in nodes {
        RemoveAbsent(nodes, id);
        return;
      }
      nodes := Remove(nodes, id);
    }

    /** Split at the middle id: nodes and replacements go to the half that covers them, in order. */
    method Split() returns (lower: KBucket, upper: KBucket)
      requires BucketOk(Contents()) && start < end
      ensures fresh(lower) && fresh(upper) && lower != upper
      ensures lower.Contents() == LowerHalf(Contents()) && upper.Contents() == UpperHalf(Contents())
    {
      var splitId := start + (end - start) / 2;
      lower := new KBucket(start, splitId);
      upper := new KBucket(splitId + 1, end);
      var i := 0;
      while i < |nodes|
        invariant 0 <= i <= |nodes|
        invariant lower.Contents() == Bucket(start, splitId, Within(nodes[..i], start, splitId), [])
        invariant upper.Contents() == Bucket(splitId + 1, end, Within(nodes[..i], splitId + 1, end), [])
      {
        PrefixDistribution(nodes, i, start, splitId, end);
        var bucket := if nodes[i] <= splitId then lower else upper;
        var evict := bucket.AddNode(nodes[i]);
        i := i + 1;
      }
      assert nodes[..i] == nodes;
      SplitCache(lower, upper, splitId);
    }

    /** Append each replacement to the half that covers it. */
    method SplitCache(lower: KBucket, upper: KBucket, splitId: int)
      requires lower != upper && lower != this && upper != this && lower.cache == upper.cache == []
      requires start <= splitId < end && forall n :: n in cache ==> start <= n <= end
      modifies lower`cache, upper`cache
      ensures lower.cache == Within(cache, start, splitId) && upper.cache == Within(cache, splitId + 1, end)
    {
      var i := 0;
      while i < |cache|
        invariant 0 <= i <= |cache|
        invariant lower.cache == Within(cache[..i], start, splitId) && upper.cache == Within(cache[..i], splitId + 1, end)
      {
        assert cache[i] in cache;
        assert cache[..i + 1] == cache[..i] + [cache[i]];
        WithinSnoc(cache[..i], cache[i], start, splitId);
        WithinSnoc(cache[..i], cache[i], splitId + 1, end);
        var bucket := if cache[i] <= splitId then lower else upper;
        bucket.cache := bucket.cache + [cache[i]];
        i := i + 1;
      }
      assert cache[..i] == cache;
    }

    /** The number of leading digits all ids share; -1 stands for the exception. */
    method GetDepth() returns (depth: int)
      ensures depth == Buckets.Depth(nodes)
    {
      if |nodes| < 2 {
        return ID_BITS;
      }
      var i := 0;
      while i < ID_BITS
        invariant 0 <= i <= ID_BITS
        invariant DepthFrom(nodes, i) == DepthFrom(nodes, 0)
      {
        if !SharePrefix(nodes, i) {
          return i - 1;
        }
        i := i + 1;
      }
      return -1;
    }
  }

  lemma {:induction false} RemoveAbsent(s: seq<nat>, x: nat)
    requires x !in s
    ensures Remove(s, x) == s
  {
    if s != [] {
      RemoveAbsent(s[1..], x);
    }
  }

  /** The next node belongs to one half, has not been put there yet, and there is room for it. */
  lemma PrefixDistribution(nodes: seq<nat>, i: nat, start: nat, splitId: int, end: int)
    requires i < |nodes| <= K_BUCKET_SIZE && NoDuplicates(nodes)
    requires start <= splitId < end && forall n :: n in nodes ==> start <= n <= end
    ensures var x := nodes[i];
            && Within(nodes[..i + 1], start, splitId) == Within(nodes[..i], start, splitId) + (if x <= splitId then [x] else [])
            && Within(nodes[..i + 1], splitId + 1, end) == Within(nodes[..i], splitId + 1, end) + (if x <= splitId then [] else [x])
            && x !in Within(nodes[..i], start, splitId) && x !in Within(nodes[..i], splitId + 1, end)
            && |Within(nodes[..i], start, splitId)| < K_BUCKET_SIZE && |Within(nodes[..i], splitId + 1, end)| < K_BUCKET_SIZE
  {
    var x := nodes[i];
    assert x in nodes;
    assert nodes[..i + 1] == nodes[..i] + [x];
    WithinSnoc(nodes[..i], x, start, splitId);
    WithinSnoc(nodes[..i], x, splitId + 1, end);
    WithinMembers(nodes[..i], start, splitId);
    WithinMembers(nodes[..i], splitId + 1, end);
    assert x !in nodes[..i];
  }

  function Take<T>(s: seq<T>, k: nat): seq<T> {
    if |s| <= k then s else s[..k]
  }

  /** The contents of a list of bucket objects. */
  ghost predicate Hold(buckets: seq<KBucket>, contents: seq<Bucket>)
    reads buckets
  {
    |contents| == |buckets| && forall i :: 0 <= i < |buckets| ==> buckets[i].Contents() == contents[i]
  }

  ghost predicate DistinctObjects(buckets: seq<KBucket>) {
    forall i, j :: 0 <= i < j < |buckets| ==> buckets[i] != buckets[j]
  }

  /** The table with one more replacement in one bucket. */
  function Caching(buckets: seq<Bucket>, i: nat, id: nat): seq<Bucket>
    requires i < |buckets|
  {
    buckets[i := buckets[i].(cache := buckets[i].cache + [id])]
  }

  /** Two new halves in the place of one object. */
  lemma SplitObjects(buckets: seq<KBucket>, contents: seq<Bucket>, i: nat, lower: KBucket, upper: KBucket)
    requires DistinctObjects(buckets) && i < |buckets| && lower != upper && lower !in buckets && upper !in buckets
    requires Hold(buckets, contents) && contents[i].start <= contents[i].end
    requires lower.Contents() == LowerHalf(contents[i]) && upper.Contents() == UpperHalf(contents[i])
    ensures DistinctObjects(buckets[..i] + [lower, upper] + buckets[i + 1..])
    ensures Hold(buckets[..i] + [lower, upper] + buckets[i + 1..], SplitAt(contents, i))
  {
    var after, t := buckets[..i] + [lower, upper] + buckets[i + 1..], SplitAt(contents, i);
    forall k | 0 <= k < |after| ensures after[k].Contents() == t[k] {
      if k > i + 1 {
        assert after[k] == buckets[k - 1] && t[k] == contents[k - 1];
      }
    }
  }

  /** The distance of the middle of a bucket from an id. */
  function MiddleDistance(id: nat): KBucket -> nat {
    (b: KBucket) => MidDistance(id)(Bucket(b.start, b.end, [], []))
  }

  lemma {:induction false} InsertHolds(b: KBucket, buckets: seq<KBucket>, contents: seq<Bucket>, id: nat)
    requires Hold(buckets, contents)
    ensures Hold(Insert(b, buckets, MiddleDistance(id)), Insert(b.Contents(), contents, MidDistance(id)))
    decreases |buckets|
  {
    if buckets != [] && MiddleDistance(id)(b) > MiddleDistance(id)(buckets[0]) {
      InsertHolds(b, buckets[1..], contents[1..], id);
    }
  }

  /** Sorting the objects sorts their contents. */
  lemma {:induction false} SortHolds(buckets: seq<KBucket>, contents: seq<Bucket>, id: nat)
    requires Hold(buckets, contents)
    ensures Hold(SortBy(buckets, MiddleDistance(id)), SortBy(contents, MidDistance(id)))
    decreases |buckets|
  {
    if buckets != [] {
      SortHolds(buckets[1..], contents[1..], id);
      InsertHolds(buckets[0], SortBy(buckets[1..], MiddleDistance(id)), SortBy(contents[1..], MidDistance(id)), id);
    }
  }

  /** `model` is what the bucket objects contain. */
  class RoutingTable {
    const thisNode: nat
    var buckets: seq<KBucket>
    ghost var model: seq<Bucket>

    ghost predicate Linked()
      reads this, buckets
    {
      DistinctObjects(buckets) && Hold(buckets, model)
    }

    ghost predicate Valid()
      reads this, buckets
    {
      Linked() && TableOk(model, thisNode)
    }

    constructor (thisNode: nat)
      ensures Valid() && this.thisNode == thisNode && fresh(buckets)
      ensures model == [Bucket(0, MAX_ID, [], [])]
    {
      InitialTable(thisNode);
      this.thisNode := thisNode;
      var b := new KBucket(0, MAX_ID);
      buckets := [b];
      model := [Bucket(0, MAX_ID, [], [])];
    }

    /** The position of the bucket for `id`; None stands for the exceptions. */
    method BucketByNode(id: nat) returns (r: Option<nat>)
      requires Linked()
      ensures r == Lookup(model, id)
    {
      var i := 0;
      while i < |buckets|
        invariant 0 <= i <= |buckets|
        invariant LookupFrom(model, id, i) == Lookup(model, id)
      {
        assert buckets[i].Contents() == model[i];
        if id < buckets[i].end {
          if id < buckets[i].start {
            return None;
          }
          return Some(i);
        }
        i := i + 1;
      }
      return None;
    }

    /** Replace the bucket at position `i` by its two halves. */
    method SplitBucket(i: nat)
      requires Linked() && i < |buckets| && BucketOk(model[i]) && model[i].start < model[i].end
      modifies this`buckets, this`model
      ensures Linked() && model == SplitAt(old(model), i)
      ensures forall k :: 0 <= k < |buckets| ==> buckets[k] in old(buckets) || fresh(buckets[k])
    {
      assert buckets[i].Contents() == model[i];
      var lower, upper := buckets[i].Split();
      SplitObjects(buckets, model, i, lower, upper);
      buckets := buckets[..i] + [lower, upper] + buckets[i + 1..];
      model := SplitAt(model, i);
    }

    /** The node goes to the tail of one bucket, or that bucket's head is returned. */
    method AddToBucketAt(i: nat, id: nat) returns (evict: Option<nat>)
      requires Linked() && i < |buckets|
      modifies buckets[i], this`model
      ensures Linked() && evict == AddToBucket(old(model)[i], id).1
      ensures model == old(model)[i := AddToBucket(old(model)[i], id).0]
    {
      assert buckets[i].Contents() == model[i];
      evict := buckets[i].AddNode(id);
      model := model[i := AddToBucket(model[i], id).0];
    }

    /** Whether the full bucket at position `i` may be split. */
    method ShouldSplit(i: nat) returns (split: bool)
      requires Linked() && i < |buckets|
      ensures split <==> MaySplit(model[i], thisNode)
    {
      assert buckets[i].Contents() == model[i];
      var depth := buckets[i].GetDepth();
      split := InRange(buckets[i].Contents(), thisNode) || (depth % K_B != 0 && depth != ID_BITS);
    }

    /** Add a node that was seen, splitting its bucket and trying again where that is allowed. */
    method AddNode(id: nat) returns (outcome: Outcome)
      requires Valid() && id <= MAX_ID && id != thisNode
      modifies this`buckets, this`model, buckets
      ensures Valid() && (model, outcome) == BucketTable.AddNode(old(model), thisNode, id)
      ensures forall k :: 0 <= k < |buckets| ==> buckets[k] in old(buckets) || fresh(buckets[k])
      decreases Width(model, id)
    {
      AddKeepsTable(model, thisNode, id);
      var found := BucketByNode(id);
      if found == None {
        return Raised;
      }
      var i := found.value;
      var evict := AddToBucketAt(i, id);
      if evict == None {
        return Added;
      }
      FullStays(old(model), thisNode, id);
      var split := ShouldSplit(i);
      if split {
        SplitBucket(i);
        outcome := AddNode(id);
      } else {
        outcome := Evict(evict.value);
      }
    }

    /** Remove a node from its bucket; false stands for the exceptions of the lookup. */
    method RemoveNode(id: nat) returns (ok: bool)
      requires Valid() && id <= MAX_ID
      modifies this`model, buckets
      ensures Valid() && (model, ok) == BucketTable.RemoveNode(old(model), id)
    {
      RemoveKeepsTable(model, thisNode, id, id);
      var found := BucketByNode(id);
      if found == None {
        return false;
      }
      var i := found.value;
      assert buckets[i].Contents() == model[i];
      buckets[i].RemoveNode(id);
      model := model[i := model[i].(nodes := Remove(model[i].nodes, id))];
      ok := true;
    }

    /** Keep a node as a replacement in the bucket that covers it; false stands for the exceptions. */
    method CacheReplacement(id: nat) returns (ok: bool)
      requires Linked()
      modifies this`model, buckets
      ensures Linked() && (ok <==> Lookup(old(model), id).Some?)
      ensures model == if ok then Caching(old(model), Lookup(old(model), id).value, id) else old(model)
    {
      var found := BucketByNode(id);
      if found == None {
        return false;
      }
      var i := found.value;
      assert buckets[i].Contents() == model[i];
      buckets[i].cache := buckets[i].cache + [id];
      model := Caching(model, i, id);
      ok := true;
    }

    /** The `k` nodes of the table closest to `id`, closest first. */
    method GetNeighbours(id: nat, k: nat) returns (closest: seq<nat>)
      requires Valid()
      ensures closest == Take(SortBy(AllNodes(model), DistanceTo(id)), k)
    {
      BucketOrderIsDistanceOrder(model, thisNode, id);
      SortHolds(buckets, model, id);
      var nodes := Gather(SortBy(buckets, MiddleDistance(id)), SortBy(model, MidDistance(id)), id, k);
      GatheredEnough(nodes, SortBy(AllNodes(model), DistanceTo(id)), id, k);
      closest := Take(SortBy(nodes, DistanceTo(id)), k);
    }

    /** Walk the buckets in the given order. */
    static method Gather(sorted: seq<KBucket>, ghost contents: seq<Bucket>, id: nat, k: nat) returns (nodes: seq<nat>)
      requires Hold(sorted, contents) && StrictlyAscending(SortedEach(contents, id), DistanceTo(id))
      ensures Gathered(nodes, SortedEach(contents, id), id, k)
    {
      ghost var all := SortedEach(contents, id);
      ghost var done: seq<nat> := [];
      nodes := [];
      var i := 0;
      assert contents[0..] == contents && all == [] + all;
      while i < |sorted|
        invariant 0 <= i <= |sorted|
        invariant all == done + SortedEach(contents[i..], id)
        invariant Gathered(nodes, done, id, k)
      {
        var bucket := SortBy(sorted[i].nodes, DistanceTo(id));
        assert sorted[i].Contents() == contents[i];
        SortedEachStep(contents, i, id);
        NextPrefix(all, done, bucket, SortedEach(contents[i + 1..], id));
        nodes := GatherBucket(nodes, bucket, done, all, id, k);
        done := done + bucket;
        i := i + 1;
      }
      assert contents[i..] == [];
      assert done == all;
    }

    /** Append the nodes of one bucket; stop when the list has exactly 2k nodes. */
    static method GatherBucket(nodes0: seq<nat>, bucket: seq<nat>, ghost done: seq<nat>, ghost all: seq<nat>, id: nat, k: nat)
      returns (nodes: seq<nat>)
      requires Gathered(nodes0, done, id, k) && StrictlyAscending(all, DistanceTo(id)) && done + bucket <= all
      ensures Gathered(nodes, done + bucket, id, k)
    {
      nodes := nodes0;
      var j := 0;
      assert done + bucket[..0] == done;
      while j < |bucket|
        invariant 0 <= j <= |bucket| && Gathered(nodes, done + bucket[..j], id, k)
      {
        assert done + bucket[..j + 1] == (done + bucket[..j]) + [bucket[j]];
        assert (done + bucket)[..|done| + j + 1] == done + bucket[..j + 1];
        GatherOne(nodes, done + bucket[..j], bucket[j], all, id, k);
        nodes := nodes + [bucket[j]];
        j := j + 1;
        if |nodes| == k * 2 {
          GatherNoMore(nodes, done + bucket[..j], bucket[j..], id, k);
          assert (done + bucket[..j]) + bucket[j..] == done + bucket;
          return;
        }
      }
      assert bucket[..j] == bucket;
    }
  }

  /** A full bucket is left as it is, and when it is split the bucket of the node gets narrower. */
  lemma FullStays(buckets: seq<Bucket>, local: nat, id: nat)
    requires TableOk(buckets, local) && id <= MAX_ID && Lookup(buckets, id).Some?
    requires AddToBucket(buckets[Lookup(buckets, id).value], id).1.Some?
    ensures var i := Lookup(buckets, id).value;
            && buckets[i := AddToBucket(buckets[i], id).0] == buckets
            && BucketOk(buckets[i]) && buckets[i].start < buckets[i].end
            && TableOk(SplitAt(buckets, i), local) && Width(SplitAt(buckets, i), id) < Width(buckets, id)
  {
    FoundFullIsWide(buckets, local, id);
    AddToBucketOk(buckets[Lookup(buckets, id).value], id);
    SplitOk(buckets, local, Lookup(buckets, id).value);
    SplitNarrows(buckets, local, id);
  }

  /**
   * What has been gathered from `done`, the nodes gone over so far: all of them while there are
   * fewer than 2k, and from then on at least the first 2k; always in the order of distance.
   */
  ghost predicate Gathered(nodes: seq<nat>, done: seq<nat>, id: nat, k: nat) {
    && (k == 0 || |nodes| < 2 * k ==> nodes == done)
    && (k > 0 && |nodes| >= 2 * k ==> |done| >= 2 * k && nodes[..2 * k] == done[..2 * k])
    && StrictlyAscending(nodes, DistanceTo(id))
    && (forall n :: n in nodes ==> n in done)
  }

  lemma GatherOne(nodes: seq<nat>, done: seq<nat>, n: nat, all: seq<nat>, id: nat, k: nat)
    requires Gathered(nodes, done, id, k) && StrictlyAscending(all, DistanceTo(id)) && done + [n] <= all
    ensures Gathered(nodes + [n], done + [n], id, k)
  {
    var key := DistanceTo(id);
    forall i, j | 0 <= i < j < |nodes + [n]| ensures key((nodes + [n])[i]) < key((nodes + [n])[j]) {
      if j == |nodes| {
        assert nodes[i] in done;
        var p :| 0 <= p < |done| && done[p] == nodes[i];
        assert (done + [n])[p] == all[p] && (done + [n])[|done|] == all[|done|];
      }
    }
  }

  lemma GatherNoMore(nodes: seq<nat>, done: seq<nat>, more: seq<nat>, id: nat, k: nat)
    requires Gathered(nodes, done, id, k) && |nodes| == 2 * k > 0
    ensures Gathered(nodes, done + more, id, k)
  {
  }

  lemma SortedEachStep(sorted: seq<Bucket>, i: nat, id: nat)
    requires i < |sorted|
    ensures SortedEach(sorted[i..], id) == SortBy(sorted[i].nodes, DistanceTo(id)) + SortedEach(sorted[i + 1..], id)
  {
    assert sorted[i..][0] == sorted[i] && sorted[i..][1..] == sorted[i + 1..];
  }

  lemma NextPrefix(all: seq<nat>, done: seq<nat>, bucket: seq<nat>, rest: seq<nat>)
    requires all == done + (bucket + rest)
    ensures all == (done + bucket) + rest && done + bucket <= all
  {
  }

  lemma SortOfAscending(nodes: seq<nat>, id: nat)
    requires StrictlyAscending(nodes, DistanceTo(id))
    ensures SortBy(nodes, DistanceTo(id)) == nodes
  {
    var key := DistanceTo(id);
    forall i, j | 0 <= i < j < |nodes| ensures nodes[i] != nodes[j] {
      assert key(nodes[i]) < key(nodes[j]);
    }
    forall x, y | x in nodes && y in nodes && key(x) == key(y) ensures x == y {
      XorInjective(x, y, id);
    }
    SortStrictly(nodes, key);
    AscendingIsUnique(SortBy(nodes, key), nodes, key);
  }

  /** Gathered from all nodes, the first k after sorting are the first k of all. */
  lemma GatheredEnough(nodes: seq<nat>, all: seq<nat>, id: nat, k: nat)
    requires Gathered(nodes, all, id, k)
    ensures Take(SortBy(nodes, DistanceTo(id)), k) == Take(all, k)
  {
    SortOfAscending(nodes, id);
    if k > 0 && |nodes| >= 2 * k {
      assert nodes[..k] == nodes[..2 * k][..k] && all[..k] == all[..2 * k][..k];
    }
  }
}

/**
 * The buckets of a routing table: lookup, adding with split and retry, removal, and what every
 * operation keeps.
 */
module BucketTable {
  import opened Options
  import opened XorMetric
  import opened Sorting
  import opened Buckets

  const MAX_ID := Up(1, ID_BITS) - 1

  /** The first bucket from position `i` on whose end lies beyond `id`; None stands for the exceptions. */
  function LookupFrom(buckets: seq<Bucket>, id: nat, i: nat): (r: Option<nat>)
    requires i <= |buckets|
    ensures r.Some? ==> i <= r.value < |buckets| && buckets[r.value].start <= id < buckets[r.value].end
    decreases |buckets| - i
  {
    if i == |buckets| then None
    else if id < buckets[i].end then if id >= buckets[i].start then Some(i) else None
    else LookupFrom(buckets, id, i + 1)
  }

  function Lookup(buckets: seq<Bucket>, id: nat): Option<nat> {
    LookupFrom(buckets, id, 0)
  }

  function SplitAt(buckets: seq<Bucket>, i: nat): seq<Bucket>
    requires i < |buckets| && buckets[i].start <= buckets[i].end
  {
    buckets[..i] + [LowerHalf(buckets[i]), UpperHalf(buckets[i])] + buckets[i + 1..]
  }

  /** The bucket is split when it covers the local node, or at a depth that is no multiple of 8. */
  predicate MaySplit(b: Bucket, local: nat) {
    InRange(b, local) || (Depth(b.nodes) % K_B != 0 && Depth(b.nodes) != ID_BITS)
  }

  // ---------- Well-formed tables ----------

  /** Each bucket starts where the one before it ends. */
  ghost predicate Contiguous(buckets: seq<Bucket>) {
    forall i :: 0 <= i < |buckets| - 1 ==> Adjacent(buckets, i)
  }

  ghost predicate Adjacent(buckets: seq<Bucket>, i: nat)
    requires i + 1 < |buckets|
  {
    buckets[i].end + 1 == buckets[i + 1].start
  }

  ghost predicate TableOk(buckets: seq<Bucket>, local: nat) {
    && buckets != []
    && buckets[0].start == 0 && buckets[|buckets| - 1].end == MAX_ID
    && Contiguous(buckets)
    && (forall i :: 0 <= i < |buckets| ==> BucketOk(buckets[i]) && local !in buckets[i].nodes)
  }

  ghost predicate Stored(buckets: seq<Bucket>, n: nat) {
    exists i :: 0 <= i < |buckets| && n in buckets[i].nodes
  }

  lemma {:induction false} EarlierEndsLower(buckets: seq<Bucket>, local: nat, i: nat, j: nat)
    requires TableOk(buckets, local) && i < j < |buckets|
    ensures buckets[i].end < buckets[j].start
    decreases j
  {
    assert Adjacent(buckets, j - 1);
    assert BucketOk(buckets[j - 1]);
    if i < j - 1 {
      EarlierEndsLower(buckets, local, i, j - 1);
    }
  }

  /** The whole id space is covered. */
  lemma {:induction false} SomeBucketCovers(buckets: seq<Bucket>, local: nat, id: nat, j: nat) returns (i: nat)
    requires TableOk(buckets, local) && j < |buckets| && id <= buckets[j].end
    ensures i <= j && InRange(buckets[i], id)
    decreases j
  {
    if id >= buckets[j].start {
      i := j;
    } else {
      assert Adjacent(buckets, j - 1);
      i := SomeBucketCovers(buckets, local, id, j - 1);
    }
  }

  ghost predicate EndsBucket(buckets: seq<Bucket>, id: nat) {
    exists i :: 0 <= i < |buckets| && buckets[i].end == id
  }

  lemma {:induction false} LookupReaches(buckets: seq<Bucket>, local: nat, id: nat, i: nat, j: nat)
    requires TableOk(buckets, local) && i <= j < |buckets| && InRange(buckets[j], id)
    ensures LookupFrom(buckets, id, i) == if id < buckets[j].end then Some(j) else None
    decreases |buckets| - i
  {
    if i < j {
      EarlierEndsLower(buckets, local, i, j);
      LookupReaches(buckets, local, id, i + 1, j);
    } else if id == buckets[j].end && j + 1 < |buckets| {
      assert Adjacent(buckets, j);
      LookupFails(buckets, local, id, j + 1);
    }
  }

  lemma {:induction false} LookupFails(buckets: seq<Bucket>, local: nat, id: nat, i: nat)
    requires TableOk(buckets, local) && i < |buckets| && id < buckets[i].start
    ensures LookupFrom(buckets, id, i) == None
    decreases |buckets| - i
  {
    if i + 1 < |buckets| {
      EarlierEndsLower(buckets, local, i, i + 1);
      LookupFails(buckets, local, id, i + 1);
    }
  }

  /**
   * Looking up an id of the id space succeeds exactly when no bucket ends with it, and then it
   * finds the one bucket that covers the id.
   */
  lemma LookupSucceedsIff(buckets: seq<Bucket>, local: nat, id: nat)
    requires TableOk(buckets, local) && id <= MAX_ID
    ensures Lookup(buckets, id).Some? <==> !EndsBucket(buckets, id)
    ensures Lookup(buckets, id).Some? ==>
              forall i :: 0 <= i < |buckets| ==> (InRange(buckets[i], id) <==> i == Lookup(buckets, id).value)
  {
    var j := SomeBucketCovers(buckets, local, id, |buckets| - 1);
    LookupReaches(buckets, local, id, 0, j);
    forall i | 0 <= i < |buckets| && i != j ensures !InRange(buckets[i], id) && buckets[i].end != id {
      if i < j {
        EarlierEndsLower(buckets, local, i, j);
      } else {
        EarlierEndsLower(buckets, local, j, i);
        assert BucketOk(buckets[i]);
      }
    }
  }

  // ---------- Changing one bucket, splitting one bucket ----------

  lemma ReplaceOk(buckets: seq<Bucket>, local: nat, i: nat, b: Bucket)
    requires TableOk(buckets, local) && i < |buckets| && BucketOk(b)
    requires b.start == buckets[i].start && b.end == buckets[i].end && local !in b.nodes
    ensures TableOk(buckets[i := b], local)
  {
    var t := buckets[i := b];
    forall k | 0 <= k < |t| - 1 ensures Adjacent(t, k) {
      assert Adjacent(buckets, k);
    }
  }

  lemma SplitOk(buckets: seq<Bucket>, local: nat, i: nat)
    requires TableOk(buckets, local) && i < |buckets| && buckets[i].start < buckets[i].end
    ensures TableOk(SplitAt(buckets, i), local)
  {
    var t, b := SplitAt(buckets, i), buckets[i];
    HalvesOk(b);
    forall k | 0 <= k < |t| ensures BucketOk(t[k]) && local !in t[k].nodes {
      if k < i {
        assert t[k] == buckets[k];
      } else if k > i + 1 {
        assert t[k] == buckets[k - 1];
      }
    }
    forall k | 0 <= k < |t| - 1 ensures Adjacent(t, k) {
      if k < i {
        assert Adjacent(buckets, k);
      } else if k == i + 1 {
        assert Adjacent(buckets, i);
      } else if k > i + 1 {
        assert Adjacent(buckets, k - 1);
      }
    }
    assert t[|t| - 1].end == MAX_ID;
  }

  lemma SplitStores(buckets: seq<Bucket>, i: nat, n: nat)
    requires i < |buckets| && BucketOk(buckets[i]) && buckets[i].start < buckets[i].end
    ensures Stored(SplitAt(buckets, i), n) <==> Stored(buckets, n)
  {
    var t, b := SplitAt(buckets, i), buckets[i];
    HalvesOk(b);
    if k :| 0 <= k < |buckets| && n in buckets[k].nodes {
      if k < i {
        assert n in t[k].nodes;
      } else if k > i {
        assert t[k + 1] == buckets[k];
        assert n in t[k + 1].nodes;
      } else {
        assert n in t[i].nodes || n in t[i + 1].nodes;
      }
    }
    if k :| 0 <= k < |t| && n in t[k].nodes {
      if k < i {
        assert n in buckets[k].nodes;
      } else if k > i + 1 {
        assert n in buckets[k - 1].nodes;
      } else {
        assert n in buckets[i].nodes;
      }
    }
  }

  /** How many ids the bucket of `id` covers. */
  function Width(buckets: seq<Bucket>, id: nat): nat {
    match Lookup(buckets, id)
    case None => 0
    case Some(i) => buckets[i].end - buckets[i].start + 1
  }

  /** After a split the bucket of `id`, when there is one, is one of the halves: it is narrower. */
  lemma SplitNarrows(buckets: seq<Bucket>, local: nat, id: nat)
    requires TableOk(buckets, local) && id <= MAX_ID && Lookup(buckets, id).Some?
    requires buckets[Lookup(buckets, id).value].start < buckets[Lookup(buckets, id).value].end
    ensures Width(SplitAt(buckets, Lookup(buckets, id).value), id) < Width(buckets, id)
  {
    var i := Lookup(buckets, id).value;
    var t, b := SplitAt(buckets, i), buckets[i];
    SplitOk(buckets, local, i);
    HalvesOk(b);
    LookupSucceedsIff(t, local, id);
    assert t[i] == LowerHalf(b) && t[i + 1] == UpperHalf(b);
    assert InRange(t[i], id) || InRange(t[i + 1], id);
  }

  // ---------- Adding a node ----------

  /** Added, or the least recently seen node of a full bucket to be checked, or an exception. */
  datatype Outcome = Added | Evict(candidate: nat) | Raised

  /** A full bucket that was looked up covers more than one id. */
  lemma FoundFullIsWide(buckets: seq<Bucket>, local: nat, id: nat)
    requires TableOk(buckets, local) && Lookup(buckets, id).Some?
    requires AddToBucket(buckets[Lookup(buckets, id).value], id).1.Some?
    ensures var b := buckets[Lookup(buckets, id).value]; b.start < b.end && |b.nodes| == K_BUCKET_SIZE
  {
    var b := buckets[Lookup(buckets, id).value];
    AddToBucketOk(b, id);
    FullIsWide(b);
  }

  /**
   * Add a node, splitting its bucket and trying again as long as that is allowed.  It ends because
   * the bucket of the node gets narrower with every split.
   */
  function AddNode(buckets: seq<Bucket>, local: nat, id: nat): (seq<Bucket>, Outcome)
    requires TableOk(buckets, local) && id <= MAX_ID
    decreases Width(buckets, id)
  {
    match Lookup(buckets, id)
    case None => (buckets, Raised)
    case Some(i) =>
      match AddToBucket(buckets[i], id)
      case (b, None) => (buckets[i := b], Added)
      case (_, Some(candidate)) =>
        if MaySplit(buckets[i], local) then
          FoundFullIsWide(buckets, local, id);
          SplitOk(buckets, local, i);
          SplitNarrows(buckets, local, id);
          AddNode(SplitAt(buckets, i), local, id)
        else (buckets, Evict(candidate))
  }

  lemma ReplaceStores(buckets: seq<Bucket>, i: nat, b: Bucket, id: nat, n: nat)
    requires i < |buckets| && forall y :: y in b.nodes <==> y == id || y in buckets[i].nodes
    ensures Stored(buckets[i := b], n) <==> n == id || Stored(buckets, n)
  {
    var t := buckets[i := b];
    if k :| 0 <= k < |buckets| && n in buckets[k].nodes {
      assert n in t[k].nodes;
    }
    if n == id {
      assert n in t[i].nodes;
    }
    if k :| 0 <= k < |t| && n in t[k].nodes {
      assert k != i ==> n in buckets[k].nodes;
      assert k == i && n != id ==> n in buckets[i].nodes;
    }
  }

  /** Adding keeps the table well-formed, whatever the outcome. */
  lemma {:induction false} AddKeepsTable(buckets: seq<Bucket>, local: nat, id: nat)
    requires TableOk(buckets, local) && id <= MAX_ID && id != local
    ensures TableOk(AddNode(buckets, local, id).0, local)
    decreases Width(buckets, id)
  {
    if Lookup(buckets, id).Some? {
      var i := Lookup(buckets, id).value;
      var (b, evict) := AddToBucket(buckets[i], id);
      AddToBucketOk(buckets[i], id);
      if evict == None {
        ReplaceOk(buckets, local, i, b);
      } else if MaySplit(buckets[i], local) {
        FoundFullIsWide(buckets, local, id);
        SplitOk(buckets, local, i);
        SplitNarrows(buckets, local, id);
        AddKeepsTable(SplitAt(buckets, i), local, id);
      }
    }
  }

  /** Adding loses no node; the table gains the node exactly when the outcome is Added. */
  lemma {:induction false} AddStores(buckets: seq<Bucket>, local: nat, id: nat, n: nat)
    requires TableOk(buckets, local) && id <= MAX_ID
    ensures var (t, outcome) := AddNode(buckets, local, id);
            Stored(t, n) <==> Stored(buckets, n) || (outcome == Added && n == id)
    ensures AddNode(buckets, local, id).1.Evict? ==>
              Stored(buckets, AddNode(buckets, local, id).1.candidate) && AddNode(buckets, local, id).1.candidate != id
    decreases Width(buckets, id)
  {
    if Lookup(buckets, id).Some? {
      var i := Lookup(buckets, id).value;
      var (b, evict) := AddToBucket(buckets[i], id);
      AddToBucketOk(buckets[i], id);
      if evict == None {
        ReplaceStores(buckets, i, b, id, n);
      } else if MaySplit(buckets[i], local) {
        FoundFullIsWide(buckets, local, id);
        SplitOk(buckets, local, i);
        SplitNarrows(buckets, local, id);
        SplitStores(buckets, i, n);
        AddStores(SplitAt(buckets, i), local, id, n);
        var c := AddNode(SplitAt(buckets, i), local, id).1;
        if c.Evict? {
          SplitStores(buckets, i, c.candidate);
        }
      } else {
        assert evict.value in buckets[i].nodes;
      }
    }
  }

  /** `x` and `y` are in one bucket, and `x` was seen less recently than `y`. */
  ghost predicate Older(buckets: seq<Bucket>, x: nat, y: nat) {
    exists i :: 0 <= i < |buckets| && SeenBefore(buckets[i].nodes, x, y)
  }

  lemma SplitKeepsOrder(buckets: seq<Bucket>, i: nat, x: nat, y: nat)
    requires i < |buckets| && buckets[i].start <= buckets[i].end && Older(SplitAt(buckets, i), x, y)
    ensures Older(buckets, x, y)
  {
    var t, b := SplitAt(buckets, i), buckets[i];
    var k :| 0 <= k < |t| && SeenBefore(t[k].nodes, x, y);
    if k < i {
      assert SeenBefore(buckets[k].nodes, x, y);
    } else if k > i + 1 {
      assert SeenBefore(buckets[k - 1].nodes, x, y);
    } else {
      if k == i {
        WithinKeepsOrder(b.nodes, b.start, Midpoint(b), x, y);
      } else {
        WithinKeepsOrder(b.nodes, Midpoint(b) + 1, b.end, x, y);
      }
      assert SeenBefore(buckets[i].nodes, x, y);
    }
  }

  lemma AppendKeepsOrder(s: seq<nat>, id: nat, x: nat, y: nat)
    requires SeenBefore(s + [id], x, y) && y != id
    ensures SeenBefore(s, x, y)
  {
    var i, j :| 0 <= i < j < |s + [id]| && (s + [id])[i] == x && (s + [id])[j] == y;
    assert s[i] == x && s[j] == y;
  }

  /** Adding a node never changes which of two other nodes of a bucket was seen less recently. */
  lemma {:induction false} AddKeepsOrder(buckets: seq<Bucket>, local: nat, id: nat, x: nat, y: nat)
    requires TableOk(buckets, local) && id <= MAX_ID && y != id
    requires Older(AddNode(buckets, local, id).0, x, y)
    ensures Older(buckets, x, y)
    decreases Width(buckets, id)
  {
    if Lookup(buckets, id).Some? {
      var i := Lookup(buckets, id).value;
      var (b, evict) := AddToBucket(buckets[i], id);
      if evict == None {
        var t := buckets[i := b];
        var k :| 0 <= k < |t| && SeenBefore(t[k].nodes, x, y);
        if k == i {
          if id in buckets[i].nodes {
            AppendKeepsOrder(Remove(buckets[i].nodes, id), id, x, y);
            RemoveKeepsOrder(buckets[i].nodes, id, x, y);
          } else {
            AppendKeepsOrder(buckets[i].nodes, id, x, y);
          }
        }
        assert SeenBefore(buckets[k].nodes, x, y);
      } else if MaySplit(buckets[i], local) {
        FoundFullIsWide(buckets, local, id);
        SplitOk(buckets, local, i);
        SplitNarrows(buckets, local, id);
        AddKeepsOrder(SplitAt(buckets, i), local, id, x, y);
        SplitKeepsOrder(buckets, i, x, y);
      }
    }
  }

  /** After it was added, a node is the most recently seen one of the bucket it is found in. */
  lemma {:induction false} AddedIsNewest(buckets: seq<Bucket>, local: nat, id: nat)
    requires TableOk(buckets, local) && id <= MAX_ID && AddNode(buckets, local, id).1 == Added
    ensures var t := AddNode(buckets, local, id).0;
            Lookup(t, id).Some? && t[Lookup(t, id).value].nodes != []
            && t[Lookup(t, id).value].nodes[|t[Lookup(t, id).value].nodes| - 1] == id
    decreases Width(buckets, id)
  {
    var i := Lookup(buckets, id).value;
    var (b, evict) := AddToBucket(buckets[i], id);
    if evict == None {
      LookupUnchanged(buckets, i, b, id, 0);
    } else {
      FoundFullIsWide(buckets, local, id);
      SplitOk(buckets, local, i);
      SplitNarrows(buckets, local, id);
      AddedIsNewest(SplitAt(buckets, i), local, id);
    }
  }

  lemma {:induction false} LookupUnchanged(buckets: seq<Bucket>, i: nat, b: Bucket, id: nat, k: nat)
    requires k <= |buckets| && i < |buckets| && b.start == buckets[i].start && b.end == buckets[i].end
    ensures LookupFrom(buckets[i := b], id, k) == LookupFrom(buckets, id, k)
    decreases |buckets| - k
  {
    if k < |buckets| {
      LookupUnchanged(buckets, i, b, id, k + 1);
    }
  }

  /** The bucket ends with the id, or it is full without the id and the half the split puts the id in does. */
  predicate PathEnds(b: Bucket, local: nat, id: nat)
    requires b.start <= b.end
    decreases b.end - b.start
  {
    && InRange(b, id)
    && (id == b.end
        || (id !in b.nodes && |b.nodes| >= K_BUCKET_SIZE && MaySplit(b, local)
            && PathEnds(if id <= Midpoint(b) then LowerHalf(b) else UpperHalf(b), local, id)))
  }

  lemma {:induction false} AddRaisesAt(buckets: seq<Bucket>, local: nat, id: nat, j: nat)
    requires TableOk(buckets, local) && id <= MAX_ID && j < |buckets| && InRange(buckets[j], id)
    ensures AddNode(buckets, local, id).1 == Raised <==> PathEnds(buckets[j], local, id)
    decreases Width(buckets, id)
  {
    LookupReaches(buckets, local, id, 0, j);
    if id < buckets[j].end && AddToBucket(buckets[j], id).1.Some? && MaySplit(buckets[j], local) {
      FoundFullIsWide(buckets, local, id);
      SplitOk(buckets, local, j);
      SplitNarrows(buckets, local, id);
      HalvesOk(buckets[j]);
      var t := SplitAt(buckets, j);
      assert t[j] == LowerHalf(buckets[j]) && t[j + 1] == UpperHalf(buckets[j]);
      AddRaisesAt(t, local, id, if id <= Midpoint(buckets[j]) then j else j + 1);
    }
  }

  /** Adding raises exactly when the splits that are permitted lead to a bucket that ends with the id. */
  lemma AddRaisesIff(buckets: seq<Bucket>, local: nat, id: nat)
    requires TableOk(buckets, local) && id <= MAX_ID
    ensures AddNode(buckets, local, id).1 == Raised
       <==> exists i :: 0 <= i < |buckets| && PathEnds(buckets[i], local, id)
  {
    var j := SomeBucketCovers(buckets, local, id, |buckets| - 1);
    AddRaisesAt(buckets, local, id, j);
    if i :| 0 <= i < |buckets| && i != j && PathEnds(buckets[i], local, id) {
      EarlierEndsLower(buckets, local, if i < j then i else j, if i < j then j else i);
    }
  }

  /** The largest id of the id space ends the last bucket of every table: it can never be added. */
  lemma LargestIdIsRefused(buckets: seq<Bucket>, local: nat)
    requires TableOk(buckets, local)
    ensures AddNode(buckets, local, MAX_ID) == (buckets, Raised)
  {
    assert buckets[|buckets| - 1].end == MAX_ID;
    UpPositive(1, ID_BITS);
    LookupSucceedsIff(buckets, local, MAX_ID);
  }

  // ---------- Removing a node ----------

  /** Remove a node from the bucket it is looked up in; false stands for the exception. */
  function RemoveNode(buckets: seq<Bucket>, id: nat): (seq<Bucket>, bool) {
    match Lookup(buckets, id)
    case None => (buckets, false)
    case Some(i) => (buckets[i := buckets[i].(nodes := Remove(buckets[i].nodes, id))], true)
  }

  /** Removing keeps the table well-formed and takes out that node and no other. */
  lemma RemoveKeepsTable(buckets: seq<Bucket>, local: nat, id: nat, n: nat)
    requires TableOk(buckets, local) && id <= MAX_ID
    ensures TableOk(RemoveNode(buckets, id).0, local)
    ensures RemoveNode(buckets, id).1 <==> !EndsBucket(buckets, id)
    ensures Stored(RemoveNode(buckets, id).0, n) <==> Stored(buckets, n) && !(RemoveNode(buckets, id).1 && n == id)
  {
    LookupSucceedsIff(buckets, local, id);
    if Lookup(buckets, id).Some? {
      var i := Lookup(buckets, id).value;
      var b := buckets[i].(nodes := Remove(buckets[i].nodes, id));
      var t := buckets[i := b];
      assert BucketOk(buckets[i]);
      RemoveMembers(buckets[i].nodes, id);
      ReplaceOk(buckets, local, i, b);
      if k :| 0 <= k < |buckets| && n in buckets[k].nodes {
        assert BucketOk(buckets[k]);
        assert n != id ==> n in t[k].nodes;
      }
      if k :| 0 <= k < |t| && n in t[k].nodes {
        assert BucketOk(buckets[k]);
        assert n in buckets[k].nodes;
      }
    }
  }

  /** The table a routing table starts with. */
  lemma InitialTable(local: nat)
    ensures TableOk([Bucket(0, MAX_ID, [], [])], local)
  {
    UpPositive(1, ID_BITS);
    assert Up(0, ID_BITS) == 0 by {
      ZeroUp(ID_BITS);
    }
    assert IsBlock(0, MAX_ID, 0, ID_BITS);
  }

  lemma {:induction false} ZeroUp(j: nat)
    ensures Up(0, j) == 0
    decreases j
  {
    if j > 0 {
      ZeroUp(j - 1);
    }
  }
}

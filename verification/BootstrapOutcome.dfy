/** Which nodes a bootstrap stores: all it is given, but those whose full bucket is kept whole. */
module BootstrapOutcome {
  import opened Options
  import opened XorMetric
  import opened Sorting
  import opened Buckets
  import opened BucketTable
  import opened Eviction
  import opened EvictionRuns
  import opened SplitRule

  /** The bucket of `n` is full without it, and may not be split. */
  ghost predicate Refused(buckets: seq<Bucket>, local: nat, n: nat) {
    exists i :: 0 <= i < |buckets| && FullWithout(buckets[i], n) && KeptWhole(buckets[i], local)
  }

  lemma SharePrefixOfAll(nodes: seq<nat>, i: nat, a: nat, b: nat)
    requires i <= ID_BITS && SharePrefix(nodes, i) && a in nodes && b in nodes
    ensures Shift(a, ID_BITS - i) == Shift(b, ID_BITS - i)
  {
  }

  /** A shared prefix does not depend on the order of the ids. */
  lemma SameIdsShare(a: seq<nat>, b: seq<nat>, i: nat)
    requires i <= ID_BITS && a != [] && b != [] && (forall n :: n in a <==> n in b) && SharePrefix(a, i)
    ensures SharePrefix(b, i)
  {
    forall n | n in b ensures Shift(n, ID_BITS - i) == Shift(b[0], ID_BITS - i) {
      assert b[0] in b;
      SharePrefixOfAll(a, i, n, b[0]);
    }
  }

  lemma SameIdsKeptWhole(b: Bucket, b': Bucket, local: nat)
    requires b.nodes != [] && b'.nodes != [] && (forall n :: n in b.nodes <==> n in b'.nodes) && KeptWhole(b, local)
    requires b'.start == b.start && b'.end == b.end
    ensures KeptWhole(b', local)
  {
    var d: nat :| SharesExactly(b.nodes, d) && d % 8 == 0;
    SameIdsShare(b.nodes, b'.nodes, d);
    if SharePrefix(b'.nodes, d + 1) {
      SameIdsShare(b'.nodes, b.nodes, d + 1);
    }
    assert SharesExactly(b'.nodes, d);
  }

  /** One bucket gets a node it has, or another bucket changes. */
  lemma RefusedAfterReplace(buckets: seq<Bucket>, local: nat, id: nat, n: nat, i: nat, k: nat)
    requires TableOk(buckets, local) && i < |buckets| && k < |buckets| && InRange(buckets[k], id)
    requires FullWithout(buckets[i], n) && KeptWhole(buckets[i], local) && AddToBucket(buckets[k], id).1 == None
    ensures Refused(buckets[k := AddToBucket(buckets[k], id).0], local, n)
  {
    var b := AddToBucket(buckets[k], id).0;
    var t := buckets[k := b];
    if k == i {
      AddToBucketOk(buckets[k], id);
      RemoveMembers(buckets[k].nodes, id);
      SameIdsKeptWhole(buckets[k], b, local);
      assert FullWithout(t[i], n);
    } else {
      assert t[i] == buckets[i];
    }
  }

  lemma RefusedAfterSplit(buckets: seq<Bucket>, local: nat, n: nat, i: nat, k: nat)
    requires i < |buckets| && k < |buckets| && i != k && buckets[k].start <= buckets[k].end
    requires FullWithout(buckets[i], n) && KeptWhole(buckets[i], local)
    ensures Refused(SplitAt(buckets, k), local, n)
  {
    var t := SplitAt(buckets, k);
    assert if i < k then t[i] == buckets[i] else t[i + 1] == buckets[i];
  }

  /** A node that was refused once is refused for good, whatever else is added. */
  lemma {:induction false} RefusedStays(buckets: seq<Bucket>, local: nat, id: nat, n: nat)
    requires TableOk(buckets, local) && id <= MAX_ID && Refused(buckets, local, n)
    ensures Refused(AddNode(buckets, local, id).0, local, n)
    decreases Width(buckets, id)
  {
    if Lookup(buckets, id).Some? {
      var i :| 0 <= i < |buckets| && FullWithout(buckets[i], n) && KeptWhole(buckets[i], local);
      var k := Lookup(buckets, id).value;
      AddToBucketOk(buckets[k], id);
      if AddToBucket(buckets[k], id).1 == None {
        RefusedAfterReplace(buckets, local, id, n, i, k);
      } else if MaySplit(buckets[k], local) {
        KeptWholeIff(buckets, local, i);
        FoundFullIsWide(buckets, local, id);
        RefusedAfterSplit(buckets, local, n, i, k);
        SplitOk(buckets, local, k);
        SplitNarrows(buckets, local, id);
        RefusedStays(SplitAt(buckets, k), local, id, n);
      }
    }
  }

  lemma {:induction false} AllRefusedStay(buckets: seq<Bucket>, local: nat, nodes: seq<nat>, n: nat)
    requires TableOk(buckets, local) && IdsOk(nodes) && Refused(buckets, local, n)
    ensures Refused(AddAll(buckets, local, nodes).0, local, n)
    decreases |nodes|
  {
    if nodes != [] {
      if nodes[0] == local {
        AllRefusedStay(buckets, local, nodes[1..], n);
      } else {
        AddKeepsTable(buckets, local, nodes[0]);
        RefusedStays(buckets, local, nodes[0], n);
        if AddNode(buckets, local, nodes[0]).1 != Raised {
          AllRefusedStay(AddNode(buckets, local, nodes[0]).0, local, nodes[1..], n);
        }
      }
    }
  }

  lemma FirstStoredOrRefused(buckets: seq<Bucket>, local: nat, id: nat)
    requires TableOk(buckets, local) && id <= MAX_ID && AddNode(buckets, local, id).1 != Raised
    ensures Stored(AddNode(buckets, local, id).0, id) || Refused(AddNode(buckets, local, id).0, local, id)
  {
    AddStores(buckets, local, id, id);
    if AddNode(buckets, local, id).1.Evict? {
      var i := RefusedByKeptWhole(buckets, local, id);
    }
  }

  /**
   * A bootstrap that ends without an exception: every node it is given, other than the local one, is
   * stored, or its bucket is full and kept whole; nothing else is stored that was not before.
   */
  lemma {:induction false} BootstrapStores(buckets: seq<Bucket>, local: nat, nodes: seq<nat>, n: nat)
    requires TableOk(buckets, local) && IdsOk(nodes) && AddAll(buckets, local, nodes).1
    ensures n in nodes && n != local ==> Stored(AddAll(buckets, local, nodes).0, n) || Refused(AddAll(buckets, local, nodes).0, local, n)
    ensures Stored(AddAll(buckets, local, nodes).0, n) ==> Stored(buckets, n) || (n in nodes && n != local)
    decreases |nodes|
  {
    if nodes != [] {
      assert n in nodes <==> n == nodes[0] || n in nodes[1..];
      if nodes[0] == local {
        BootstrapStores(buckets, local, nodes[1..], n);
      } else {
        AddKeepsTable(buckets, local, nodes[0]);
        var t := AddNode(buckets, local, nodes[0]).0;
        AddStores(buckets, local, nodes[0], n);
        BootstrapStores(t, local, nodes[1..], n);
        if n == nodes[0] {
          FirstStoredOrRefused(buckets, local, n);
          AddAllKeeps(t, local, nodes[1..]);
          if Refused(t, local, n) {
            AllRefusedStay(t, local, nodes[1..], n);
          }
        }
      }
    }
  }
}

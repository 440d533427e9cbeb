/**
 * k-buckets and the list of buckets of a routing table, as values.  A node is its id: nodes with
 * different public keys are taken to have different ids.
 */
module Buckets {
  import opened Options
  import opened XorMetric
  import opened Sorting

  const K_BUCKET_SIZE := 16
  const K_B := 8
  const ID_BITS := 256

  /** `nodes` from the least to the most recently seen one. */
  datatype Bucket = Bucket(start: nat, end: int, nodes: seq<nat>, cache: seq<nat>)

  function Midpoint(b: Bucket): int {
    b.start + (b.end - b.start) / 2
  }

  predicate InRange(b: Bucket, id: nat) {
    b.start <= id <= b.end
  }

  /** `s` without the first occurrence of `x`. */
  function Remove(s: seq<nat>, x: nat): seq<nat> {
    if s == [] then [] else if s[0] == x then s[1..] else [s[0]] + Remove(s[1..], x)
  }

  /** The elements of `s` between `lo` and `hi`, in order. */
  function Within(s: seq<nat>, lo: int, hi: int): seq<nat> {
    if s == [] then []
    else if lo <= s[0] <= hi then [s[0]] + Within(s[1..], lo, hi) else Within(s[1..], lo, hi)
  }

  /** A node was seen: it goes to the tail, unless the bucket is full, whose head is returned then. */
  function AddToBucket(b: Bucket, id: nat): (Bucket, Option<nat>) {
    if id in b.nodes then (b.(nodes := Remove(b.nodes, id) + [id]), None)
    else if |b.nodes| < K_BUCKET_SIZE then (b.(nodes := b.nodes + [id]), None)
    else (b, Some(b.nodes[0]))
  }

  function LowerHalf(b: Bucket): Bucket {
    Bucket(b.start, Midpoint(b), Within(b.nodes, b.start, Midpoint(b)), Within(b.cache, b.start, Midpoint(b)))
  }

  function UpperHalf(b: Bucket): Bucket
    requires b.start <= b.end
  {
    Bucket(Midpoint(b) + 1, b.end, Within(b.nodes, Midpoint(b) + 1, b.end), Within(b.cache, Midpoint(b) + 1, b.end))
  }

  // ---------- Depth ----------

  /** All ids agree in their first `i` binary digits. */
  predicate SharePrefix(nodes: seq<nat>, i: nat)
    requires i <= ID_BITS
  {
    forall n :: n in nodes ==> Shift(n, ID_BITS - i) == Shift(nodes[0], ID_BITS - i)
  }

  /** The loop over prefix lengths; -1 stands for the exception when no length below 256 tells ids apart. */
  function DepthFrom(nodes: seq<nat>, i: nat): int
    decreases ID_BITS - i
  {
    if i >= ID_BITS then -1
    else if !SharePrefix(nodes, i) then i - 1
    else DepthFrom(nodes, i + 1)
  }

  function Depth(nodes: seq<nat>): int {
    if |nodes| < 2 then ID_BITS else DepthFrom(nodes, 0)
  }

  lemma {:induction false} ShiftTop(x: nat, j: nat)
    requires x < Up(1, j)
    ensures Shift(x, j) == 0
    decreases j
  {
    if j > 0 {
      ShiftTop(x / 2, j - 1);
    }
  }

  lemma {:induction false} DepthFound(nodes: seq<nat>, i: nat, d: nat)
    requires i <= d < ID_BITS - 1 && SharePrefix(nodes, d) && !SharePrefix(nodes, d + 1)
    requires forall e :: i <= e <= d ==> SharePrefix(nodes, e)
    ensures DepthFrom(nodes, i) == d
    decreases d - i
  {
    if i < d {
      DepthFound(nodes, i + 1, d);
    }
  }

  lemma {:induction false} DepthMissing(nodes: seq<nat>, i: nat)
    requires i <= ID_BITS && forall e :: i <= e < ID_BITS ==> SharePrefix(nodes, e)
    ensures DepthFrom(nodes, i) == -1
    decreases ID_BITS - i
  {
    if i < ID_BITS {
      DepthMissing(nodes, i + 1);
    }
  }

  lemma SharePrefixStep(nodes: seq<nat>, i: nat)
    requires i < ID_BITS && SharePrefix(nodes, i + 1)
    ensures SharePrefix(nodes, i)
  {
    forall n | n in nodes ensures Shift(n, ID_BITS - i) == Shift(nodes[0], ID_BITS - i) {
      ShiftTwice(n, ID_BITS - i - 1, 1);
      ShiftTwice(nodes[0], ID_BITS - i - 1, 1);
    }
  }

  lemma {:induction false} SharePrefixShorter(nodes: seq<nat>, i: nat, e: nat)
    requires e <= i <= ID_BITS && SharePrefix(nodes, i)
    ensures SharePrefix(nodes, e)
    decreases i
  {
    if e < i {
      SharePrefixStep(nodes, i - 1);
      SharePrefixShorter(nodes, i - 1, e);
    }
  }

  /** Three different ids cannot agree in all digits but the last. */
  lemma ThreeDiffer(nodes: seq<nat>)
    requires |nodes| >= 3 && NoDuplicates(nodes)
    ensures !SharePrefix(nodes, ID_BITS - 1)
  {
    var x, y, z := nodes[0], nodes[1], nodes[2];
    assert y in nodes && z in nodes;
    assert Shift(x, 1) == x / 2 && Shift(y, 1) == y / 2 && Shift(z, 1) == z / 2;
  }

  /** Looking for the longest shared prefix downwards. */
  lemma {:induction false} LongestPrefix(nodes: seq<nat>, i: nat) returns (d: nat)
    requires i < ID_BITS && SharePrefix(nodes, 0) && !SharePrefix(nodes, i)
    ensures d < i && SharePrefix(nodes, d) && !SharePrefix(nodes, d + 1)
    decreases i
  {
    if SharePrefix(nodes, i - 1) {
      d := i - 1;
    } else {
      d := LongestPrefix(nodes, i - 1);
    }
  }

  /**
   * At most one node: depth 256.  Two nodes: the length of their longest shared prefix, but the
   * exception (-1) when they differ in the last bit only.
   */
  lemma DepthOfFew(nodes: seq<nat>)
    requires |nodes| <= 2 && NoDuplicates(nodes) && forall n :: n in nodes ==> n < Up(1, ID_BITS)
    ensures |nodes| < 2 ==> Depth(nodes) == 256
    ensures |nodes| == 2 ==> (Depth(nodes) == -1 <==> SharePrefix(nodes, 255))
    ensures |nodes| == 2 && !SharePrefix(nodes, 255) ==>
              0 <= Depth(nodes) < 255 && SharePrefix(nodes, Depth(nodes)) && !SharePrefix(nodes, Depth(nodes) + 1)
  {
    if |nodes| == 2 {
      assert nodes[0] in nodes && nodes[1] in nodes;
      ShiftTop(nodes[0], ID_BITS);
      ShiftTop(nodes[1], ID_BITS);
      if SharePrefix(nodes, 255) {
        forall e | 0 <= e <= 255 ensures SharePrefix(nodes, e) {
          SharePrefixShorter(nodes, 255, e);
        }
        DepthMissing(nodes, 0);
      } else {
        var d := LongestPrefix(nodes, ID_BITS - 1);
        forall e | 0 <= e <= d ensures SharePrefix(nodes, e) {
          SharePrefixShorter(nodes, d, e);
        }
        DepthFound(nodes, 0, d);
      }
    }
  }

  /** For three or more ids of the id space the depth is the length of the longest shared prefix. */
  lemma DepthIsSharedPrefix(nodes: seq<nat>)
    requires |nodes| >= 3 && NoDuplicates(nodes) && forall n :: n in nodes ==> n < Up(1, ID_BITS)
    ensures 0 <= Depth(nodes) < ID_BITS - 1
    ensures SharePrefix(nodes, Depth(nodes)) && !SharePrefix(nodes, Depth(nodes) + 1)
  {
    forall n | n in nodes ensures Shift(n, ID_BITS) == 0 {
      ShiftTop(n, ID_BITS);
    }
    assert nodes[0] in nodes;
    ThreeDiffer(nodes);
    var d := LongestPrefix(nodes, ID_BITS - 1);
    forall e | 0 <= e <= d ensures SharePrefix(nodes, e) {
      SharePrefixShorter(nodes, d, e);
    }
    DepthFound(nodes, 0, d);
  }

  // ---------- Well-formed buckets ----------

  ghost predicate Aligned(start: nat, end: int) {
    exists a: nat, j: nat :: j <= ID_BITS && IsBlock(start, end, a, j)
  }

  ghost predicate BucketOk(b: Bucket) {
    && b.start <= b.end
    && Aligned(b.start, b.end)
    && NoDuplicates(b.nodes) && |b.nodes| <= K_BUCKET_SIZE
    && (forall n :: n in b.nodes ==> InRange(b, n))
    && (forall n :: n in b.cache ==> InRange(b, n))
  }

  lemma {:induction false} WithinMembers(s: seq<nat>, lo: int, hi: int)
    ensures forall x :: x in Within(s, lo, hi) <==> x in s && lo <= x <= hi
    ensures |Within(s, lo, hi)| <= |s|
  {
    if s != [] {
      WithinMembers(s[1..], lo, hi);
      assert forall x :: x in s <==> x == s[0] || x in s[1..];
    }
  }

  lemma NoDuplicatesTail(s: seq<nat>)
    requires NoDuplicates(s) && s != []
    ensures NoDuplicates(s[1..]) && s[0] !in s[1..]
  {
  }

  lemma NoDuplicatesCons(x: nat, s: seq<nat>)
    requires NoDuplicates(s) && x !in s
    ensures NoDuplicates([x] + s)
  {
  }

  lemma {:induction false} WithinDistinct(s: seq<nat>, lo: int, hi: int)
    requires NoDuplicates(s)
    ensures NoDuplicates(Within(s, lo, hi))
  {
    if s != [] {
      NoDuplicatesTail(s);
      WithinDistinct(s[1..], lo, hi);
      WithinMembers(s[1..], lo, hi);
      if lo <= s[0] <= hi {
        NoDuplicatesCons(s[0], Within(s[1..], lo, hi));
      }
    }
  }

  lemma {:induction false} RemoveMembers(s: seq<nat>, x: nat)
    requires NoDuplicates(s)
    ensures forall y :: y in Remove(s, x) <==> y in s && y != x
    ensures NoDuplicates(Remove(s, x))
    ensures |Remove(s, x)| == |s| - if x in s then 1 else 0
  {
    if s != [] {
      NoDuplicatesTail(s);
      assert forall y :: y in s <==> y == s[0] || y in s[1..];
      if s[0] != x {
        RemoveMembers(s[1..], x);
        NoDuplicatesCons(s[0], Remove(s[1..], x));
      }
    }
  }

  lemma AddToBucketOk(b: Bucket, id: nat)
    requires BucketOk(b) && InRange(b, id)
    ensures var (b', evict) := AddToBucket(b, id);
            && BucketOk(b') && b'.start == b.start && b'.end == b.end && b'.cache == b.cache
            && (evict == None ==> b'.nodes != [] && b'.nodes[|b'.nodes| - 1] == id
                                  && forall y :: y in b'.nodes <==> y == id || y in b.nodes)
            && (evict.Some? ==> b' == b && |b.nodes| == K_BUCKET_SIZE && id !in b.nodes && evict.value == b.nodes[0])
  {
    RemoveMembers(b.nodes, id);
  }

  /** Halving an aligned block of more than one id gives two aligned blocks. */
  lemma HalvesAligned(start: nat, end: int)
    requires Aligned(start, end) && start < end
    ensures var mid := start + (end - start) / 2;
            start <= mid < end && Aligned(start, mid) && Aligned(mid + 1, end)
  {
    var a: nat, j: nat :| j <= ID_BITS && IsBlock(start, end, a, j);
    UpIsLinear(a, 1, j);
    if j > 0 {
      UpDouble(a, j - 1);
      UpDouble(a + 1, j - 1);
      UpIsLinear(2 * a, 1, j - 1);
      UpIsLinear(2 * a + 1, 1, j - 1);
      assert 2 * (a + 1) == 2 * a + 1 + 1;
      var mid := start + (end - start) / 2;
      assert IsBlock(start, mid, 2 * a, j - 1);
      assert IsBlock(mid + 1, end, 2 * a + 1, j - 1);
    }
  }

  lemma HalvesOk(b: Bucket)
    requires BucketOk(b) && b.start < b.end
    ensures BucketOk(LowerHalf(b)) && BucketOk(UpperHalf(b))
    ensures LowerHalf(b).end + 1 == UpperHalf(b).start && b.start <= LowerHalf(b).end < b.end
    ensures forall x :: x in LowerHalf(b).nodes || x in UpperHalf(b).nodes <==> x in b.nodes
    ensures forall x :: x in LowerHalf(b).cache || x in UpperHalf(b).cache <==> x in b.cache
  {
    HalvesAligned(b.start, b.end);
    var mid := Midpoint(b);
    WithinMembers(b.nodes, b.start, mid);
    WithinMembers(b.nodes, mid + 1, b.end);
    WithinDistinct(b.nodes, b.start, mid);
    WithinDistinct(b.nodes, mid + 1, b.end);
    WithinMembers(b.cache, b.start, mid);
    WithinMembers(b.cache, mid + 1, b.end);
  }

  /** A bucket with two different ids covers more than one id. */
  lemma FullIsWide(b: Bucket)
    requires BucketOk(b) && |b.nodes| >= 2
    ensures b.start < b.end
  {
    assert b.nodes[0] in b.nodes && b.nodes[1] in b.nodes;
  }

  /** `x` was seen before `y`, both in one list. */
  ghost predicate SeenBefore(s: seq<nat>, x: nat, y: nat) {
    exists i, j :: 0 <= i < j < |s| && s[i] == x && s[j] == y
  }

  lemma SeenBeforeCons(s: seq<nat>, x: nat, y: nat)
    requires s != []
    ensures SeenBefore(s, x, y) <==> (s[0] == x && y in s[1..]) || SeenBefore(s[1..], x, y)
  {
    if SeenBefore(s, x, y) {
      var i, j :| 0 <= i < j < |s| && s[i] == x && s[j] == y;
      assert s[1..][j - 1] == y;
      if i > 0 {
        assert s[1..][i - 1] == x;
      }
    }
    if s[0] == x && y in s[1..] {
      var j :| 0 <= j < |s[1..]| && s[1..][j] == y;
      assert s[j + 1] == y;
    }
    if SeenBefore(s[1..], x, y) {
      var i, j :| 0 <= i < j < |s[1..]| && s[1..][i] == x && s[1..][j] == y;
      assert s[i + 1] == x && s[j + 1] == y;
    }
  }

  /** Splitting keeps the order in which nodes were seen. */
  lemma {:induction false} WithinKeepsOrder(s: seq<nat>, lo: int, hi: int, x: nat, y: nat)
    requires SeenBefore(Within(s, lo, hi), x, y)
    ensures SeenBefore(s, x, y)
  {
    if s != [] {
      var t := Within(s[1..], lo, hi);
      WithinMembers(s[1..], lo, hi);
      SeenBeforeCons(s, x, y);
      if lo <= s[0] <= hi {
        assert Within(s, lo, hi)[1..] == t;
        SeenBeforeCons(Within(s, lo, hi), x, y);
      }
      if SeenBefore(t, x, y) {
        WithinKeepsOrder(s[1..], lo, hi, x, y);
      }
    }
  }

  /** Moving a node to the tail keeps the order of the others. */
  lemma {:induction false} RemoveKeepsOrder(s: seq<nat>, id: nat, x: nat, y: nat)
    requires SeenBefore(Remove(s, id), x, y)
    ensures SeenBefore(s, x, y)
  {
    if s != [] {
      SeenBeforeCons(s, x, y);
      if s[0] != id {
        var t := Remove(s[1..], id);
        assert Remove(s, id)[1..] == t;
        SeenBeforeCons(Remove(s, id), x, y);
        RemoveSubset(s[1..], id);
        if SeenBefore(t, x, y) {
          RemoveKeepsOrder(s[1..], id, x, y);
        }
      }
    }
  }

  lemma {:induction false} RemoveSubset(s: seq<nat>, id: nat)
    ensures forall y :: y in Remove(s, id) ==> y in s
  {
    if s != [] && s[0] != id {
      RemoveSubset(s[1..], id);
    }
  }
}

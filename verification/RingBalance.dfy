/**
 * Bookkeeping of one ring broadcast: which members a message in flight will still lead to,
 * and how forwarding a message divides that responsibility among the messages sent.
 */
module RingBalance {
  import opened Sums
  import opened SpanningTree
  import opened Overlay

  /** No node occurs twice: looking a peer up finds the position it was taken from. */
  ghost predicate Distinct(peers: seq<NodeId>) {
    forall i :: 0 <= i < |peers| ==> Position(peers, peers[i]) == i
  }

  /** The order of `y` relative to the starter, seen from member `z` that holds `order`. */
  function RelativeOrder(peers: seq<NodeId>, z: NodeId, order: nat, y: NodeId): (r: nat)
    requires z in peers && y in peers && order < |peers|
    ensures r < |peers|
  {
    var r := Position(peers, y) - Position(peers, z) + order;
    if r < 0 then r + |peers| else if r >= |peers| then r - |peers| else r
  }

  /** What member `z` does with order `order` leads on to member `y`. */
  predicate LeadsOn(peers: seq<NodeId>, z: NodeId, order: int, y: NodeId) {
    z in peers && y in peers && 0 <= order < |peers| && InSubtree(order, RelativeOrder(peers, z, order, y))
  }

  /** 1 when message `m` is for the ring `peers` of level `k` and leads to member `y`. */
  function Covers(peers: seq<NodeId>, k: nat, y: NodeId): Msg -> nat {
    (m: Msg) => if IsRingMsg(m) && m.level == k && LeadsOn(peers, m.to, m.order, y) then 1 else 0
  }

  /** Along a hop the relative orders stay the same: position moves as much as order does. */
  lemma RelativeOrderStable(peers: seq<NodeId>, z: NodeId, order: nat, q: nat, y: NodeId)
    requires Distinct(peers) && z in peers && y in peers && 0 < q && order + q < |peers|
    ensures 0 <= Wrapped(Position(peers, z) + q, |peers|) < |peers|
    ensures var child := peers[Wrapped(Position(peers, z) + q, |peers|)];
            RelativeOrder(peers, child, order + q, y) == RelativeOrder(peers, z, order, y) && child != z
  {
    var p := Position(peers, z);
    var t := Wrapped(p + q, |peers|);
    assert 0 <= t < |peers| && t != p;
  }

  lemma OwnRelativeOrder(peers: seq<NodeId>, z: NodeId, order: nat, y: NodeId)
    requires Distinct(peers) && z in peers && y in peers && order < |peers|
    ensures RelativeOrder(peers, z, order, y) == order <==> y == z
  {
  }

  lemma HopStaysRelative(peers: seq<NodeId>, z: NodeId, k: nat, order: nat, i: nat, y: NodeId, r: nat, m: Msg)
    requires Distinct(peers) && z in peers && y in peers && order + Pow2(i) < |peers|
    requires m == Hop(peers, z, k, order, i)
    requires r == RelativeOrder(peers, z, order, y)
    ensures IsRingMsg(m) && m.to in peers && m.to != z && m.order == order + Pow2(i) && m.level == k
    ensures r == RelativeOrder(peers, m.to, m.order, y)
  {
    RelativeOrderStable(peers, z, order, Pow2(i), y);
  }

  lemma CoversMember(peers: seq<NodeId>, k: nat, m: Msg, y: NodeId, o: nat, r: nat)
    requires y in peers && m.to in peers && m.order == o < |peers|
    requires IsRingMsg(m) && m.level == k && r == RelativeOrder(peers, m.to, o, y)
    ensures Covers(peers, k, y)(m) == LeadsTo(o, r)
  {
  }

  /** From exponent `i` on, the messages sent share out the rest of the class of `order` exactly. */
  lemma {:induction false} SendsShareClass(peers: seq<NodeId>, z: NodeId, k: nat, order: nat, i: nat, y: NodeId, r: nat)
    requires Distinct(peers) && z in peers && y in peers && order < |peers| && order < Pow2(i)
    requires r == RelativeOrder(peers, z, order, y)
    ensures Sum(RingSends(peers, z, k, order, i), Covers(peers, k, y))
         == if SameLowDigits(order, r, i) && r != order then 1 else 0
    decreases if order + Pow2(i) < |peers| then |peers| - order - Pow2(i) else 0
  {
    if order + Pow2(i) < |peers| {
      SendsShareClass(peers, z, k, order, i + 1, y, r);
      var m := Hop(peers, z, k, order, i);
      HopStaysRelative(peers, z, k, order, i, y, r, m);
      CoversMember(peers, k, m, y, order + Pow2(i), r);
      SumConcat([m], RingSends(peers, z, k, order, i + 1), Covers(peers, k, y));
      SumSingle(m, Covers(peers, k, y));
      FirstChildShares(order, i, r);
    } else if SameLowDigits(order, r, i) && r != order {
      ClassGap(order, r, i);
    }
  }

  lemma {:induction false} SkippedExponents(peers: seq<NodeId>, z: NodeId, k: nat, order: nat, i: nat)
    requires i <= BitLength(order)
    ensures RingSends(peers, z, k, order, i) == RingSends(peers, z, k, order, BitLength(order))
    decreases BitLength(order) - i
  {
    if i < BitLength(order) {
      if Pow2(i) > order {
        BitLengthIsLeast(order, i);
        assert false;
      }
      SkippedExponents(peers, z, k, order, i + 1);
      Pow2Monotone(i, BitLength(order));
    }
  }

  /**
   * Forwarding a message of order `order` at member `z`: the messages sent lead to exactly the
   * members the message led to, other than `z` itself, once each.
   */
  lemma ForwardingBalance(peers: seq<NodeId>, z: NodeId, k: nat, order: nat, y: NodeId)
    requires Distinct(peers) && z in peers && y in peers && order < |peers|
    ensures Sum(RingSends(peers, z, k, order, 0), Covers(peers, k, y))
         == if LeadsOn(peers, z, order, y) && y != z then 1 else 0
  {
    SkippedExponents(peers, z, k, order, 0);
    SendsShareClass(peers, z, k, order, BitLength(order), y, RelativeOrder(peers, z, order, y));
    OwnRelativeOrder(peers, z, order, y);
  }

  /** What the starter does leads to every member. */
  lemma StarterLeadsToAll(peers: seq<NodeId>, z: NodeId, y: NodeId)
    requires z in peers && y in peers
    ensures LeadsOn(peers, z, 0, y)
  {
    assert BitLength(0) == 0;
  }

  /** A member is led to by its own message. */
  lemma LeadsToItself(peers: seq<NodeId>, z: NodeId, order: nat)
    requires z in peers && order < |peers|
    ensures LeadsOn(peers, z, order, z)
  {
    OwnClass(order, BitLength(order));
  }

  /** The shape of every message a ring broadcast sends. */
  lemma {:induction false} RingSendsShape(peers: seq<NodeId>, z: NodeId, k: nat, order: nat, i: nat, m: Msg)
    requires Distinct(peers) && z in peers
    requires m in RingSends(peers, z, k, order, i)
    ensures m.to in peers && m.to != z && m.from == z && m.level == k && m.kind == KindFor(k, m.to)
    ensures order < m.order < |peers|
    decreases if order + Pow2(i) < |peers| then |peers| - order - Pow2(i) else 0
  {
    if order + Pow2(i) < |peers| {
      if Pow2(i) > order && m == Hop(peers, z, k, order, i) {
        HopStaysRelative(peers, z, k, order, i, z, RelativeOrder(peers, z, order, z), m);
      } else {
        assert m in RingSends(peers, z, k, order, i + 1);
        RingSendsShape(peers, z, k, order, i + 1, m);
      }
    }
  }

  lemma {:induction false} RingSendsCount(peers: seq<NodeId>, z: NodeId, k: nat, order: nat, i: nat)
    ensures |RingSends(peers, z, k, order, i)| <= |peers|
    ensures order + Pow2(i) < |peers| ==> |RingSends(peers, z, k, order, i)| <= |peers| - order - Pow2(i)
    decreases if order + Pow2(i) < |peers| then |peers| - order - Pow2(i) else 0
  {
    if order + Pow2(i) < |peers| {
      RingSendsCount(peers, z, k, order, i + 1);
    }
  }

  /** Which orders a member sends to, from exponent `i` on. */
  lemma {:induction false} OrdersSent(peers: seq<NodeId>, z: NodeId, k: nat, order: nat, i: nat, e: nat)
    requires Distinct(peers) && z in peers
    ensures (exists m :: m in RingSends(peers, z, k, order, i) && m.order == order + Pow2(e))
       <==> i <= e && order < Pow2(e) && order + Pow2(e) < |peers|
    decreases if order + Pow2(i) < |peers| then |peers| - order - Pow2(i) else 0
  {
    if order + Pow2(i) >= |peers| {
      if i <= e {
        Pow2Monotone(i, e);
      }
    } else {
      var rest := RingSends(peers, z, k, order, i + 1);
      OrdersSent(peers, z, k, order, i + 1, e);
      if Pow2(i) > order {
        var first := Hop(peers, z, k, order, i);
        var sends := RingSends(peers, z, k, order, i);
        assert sends == [first] + rest;
        assert first in sends;
        assert forall m :: m in sends <==> m == first || m in rest;
        SameOrder(order, i, e);
      }
    }
  }

  lemma SameOrder(order: nat, i: nat, e: nat)
    ensures order + Pow2(i) == order + Pow2(e) ==> i == e
  {
    if i < e {
      Pow2Monotone(i + 1, e);
    } else if e < i {
      Pow2Monotone(e + 1, i);
    }
  }

  /** The member of order `c` is sent to by exactly one order: its parent. */
  lemma UniqueSender(peers: seq<NodeId>, z: NodeId, k: nat, order: nat, c: nat)
    requires Distinct(peers) && z in peers && 0 < c < |peers|
    ensures (exists m :: m in RingSends(peers, z, k, order, 0) && m.order == c) <==> order == Parent(c)
  {
    if order == Parent(c) {
      ParentSends(peers, z, k, c);
    }
    if m :| m in RingSends(peers, z, k, order, 0) && m.order == c {
      OnlyParentSends(peers, z, k, order, m);
    }
  }

  lemma ParentSends(peers: seq<NodeId>, z: NodeId, k: nat, c: nat)
    requires Distinct(peers) && z in peers && 0 < c < |peers|
    ensures exists m :: m in RingSends(peers, z, k, Parent(c), 0) && m.order == c
  {
    var order, e := Parent(c), BitLength(c) - 1;
    LeadingDigit(c);
    assert order + Pow2(e) == c;
    OrdersSent(peers, z, k, order, 0, e);
  }

  lemma OnlyParentSends(peers: seq<NodeId>, z: NodeId, k: nat, order: nat, m: Msg)
    requires Distinct(peers) && z in peers && m in RingSends(peers, z, k, order, 0) && m.order > 0
    ensures order == Parent(m.order)
  {
    var d := ExponentOf(peers, z, k, order, 0, m);
    OrdersSent(peers, z, k, order, 0, d);
    ParentOfChild(order, d);
  }

  lemma {:induction false} ExponentOf(peers: seq<NodeId>, z: NodeId, k: nat, order: nat, i: nat, m: Msg) returns (e: nat)
    requires m in RingSends(peers, z, k, order, i)
    ensures m.order == order + Pow2(e)
    decreases if order + Pow2(i) < |peers| then |peers| - order - Pow2(i) else 0
  {
    if Pow2(i) > order && m == Hop(peers, z, k, order, i) {
      e := i;
    } else {
      e := ExponentOf(peers, z, k, order, i + 1, m);
    }
  }
}

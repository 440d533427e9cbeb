/**
 * What a node puts on the wire, message by message: to whom, with which order and which type, and in
 * which sequence of levels.
 */
module Forwarding {
  import opened Sums
  import opened SpanningTree
  import opened Overlay
  import opened RingBalance

  /**
   * The message of member `p`, holding `order`, for exponent `e`: `2^e` members further round the ring.
   * Above level 0 a receiver whose id within the district is zero starts the rings below.
   */
  ghost predicate SentFor(peers: seq<NodeId>, p: nat, level: nat, order: nat, e: nat, m: Msg)
    requires p < |peers|
  {
    && order < Pow2(e) && order + Pow2(e) < |peers|
    && var to := if p + Pow2(e) < |peers| then peers[p + Pow2(e)] else peers[p + Pow2(e) - |peers|];
       m == Msg(to, peers[p], if level > 0 && to.single == 0 then 2 else 5, level, order + Pow2(e))
  }

  lemma HopIsSent(peers: seq<NodeId>, p: nat, level: nat, order: nat, e: nat)
    requires p < |peers| && Distinct(peers) && order < Pow2(e) && order + Pow2(e) < |peers|
    ensures SentFor(peers, p, level, order, e, Hop(peers, peers[p], level, order, e))
    ensures forall m :: SentFor(peers, p, level, order, e, m) ==> m == Hop(peers, peers[p], level, order, e)
  {
    assert Position(peers, peers[p]) == p;
  }

  lemma {:induction false} NoneFurther(peers: seq<NodeId>, order: nat, i: nat, e: nat)
    requires order + Pow2(i) >= |peers| && i <= e
    ensures order + Pow2(e) >= |peers|
  {
    Pow2Monotone(i, e);
  }

  lemma {:induction false} SentFrom(peers: seq<NodeId>, p: nat, level: nat, order: nat, i: nat, m: Msg)
    requires p < |peers| && Distinct(peers)
    ensures m in RingSends(peers, peers[p], level, order, i) <==> exists e: nat :: i <= e && SentFor(peers, p, level, order, e, m)
    decreases if order + Pow2(i) < |peers| then |peers| - order - Pow2(i) else 0
  {
    var self := peers[p];
    if order + Pow2(i) >= |peers| {
      forall e: nat | i <= e ensures !SentFor(peers, p, level, order, e, m) {
        NoneFurther(peers, order, i, e);
      }
    } else {
      SentFrom(peers, p, level, order, i + 1, m);
      var rest := RingSends(peers, self, level, order, i + 1);
      if Pow2(i) > order {
        HopIsSent(peers, p, level, order, i);
        assert RingSends(peers, self, level, order, i) == [Hop(peers, self, level, order, i)] + rest;
      } else {
        assert !SentFor(peers, p, level, order, i, m);
      }
    }
  }

  lemma {:induction false} SentRising(peers: seq<NodeId>, self: NodeId, level: nat, order: nat, i: nat, j: nat)
    requires j < |RingSends(peers, self, level, order, i)|
    ensures RingSends(peers, self, level, order, i)[j].order >= order + Pow2(i)
    ensures forall k :: 0 <= k < j ==> RingSends(peers, self, level, order, i)[k].order < RingSends(peers, self, level, order, i)[j].order
    decreases if order + Pow2(i) < |peers| then |peers| - order - Pow2(i) else 0
  {
    if order + Pow2(i) < |peers| {
      if Pow2(i) <= order {
        SentRising(peers, self, level, order, i + 1, j);
      } else if j > 0 {
        SentRising(peers, self, level, order, i + 1, j - 1);
        var rest := RingSends(peers, self, level, order, i + 1);
        assert RingSends(peers, self, level, order, i) == [Hop(peers, self, level, order, i)] + rest;
      }
    }
  }

  /** Within a ring a member sends exactly one message for each exponent, in rising order. */
  lemma {:induction false} RingSendsAre(peers: seq<NodeId>, p: nat, level: nat, order: nat)
    requires p < |peers| && Distinct(peers)
    ensures var out := RingSends(peers, peers[p], level, order, 0);
            && (forall m :: m in out <==> exists e: nat :: SentFor(peers, p, level, order, e, m))
            && forall j, k :: 0 <= k < j < |out| ==> out[k].order < out[j].order
  {
    var out := RingSends(peers, peers[p], level, order, 0);
    forall m ensures m in out <==> exists e: nat :: SentFor(peers, p, level, order, e, m) {
      SentFrom(peers, p, level, order, 0, m);
    }
    forall j, k | 0 <= k < j < |out| ensures out[k].order < out[j].order {
      SentRising(peers, peers[p], level, order, 0, j);
    }
  }

  lemma {:induction false} LevelKept(peers: seq<NodeId>, self: NodeId, level: nat, order: nat, i: nat)
    ensures forall m :: m in RingSends(peers, self, level, order, i) ==> m.level == level && m.from == self
    decreases if order + Pow2(i) < |peers| then |peers| - order - Pow2(i) else 0
  {
    if order + Pow2(i) < |peers| {
      LevelKept(peers, self, level, order, i + 1);
    }
  }

  lemma {:induction false} OneLevelDown(tables: seq<Ring>, self: NodeId, level: nat) returns (own: seq<Msg>, below: seq<Msg>)
    ensures own == RingSends(PeersAt(tables, level), self, level, 0, 0) && below == DownSends(tables, self, level - 1)
    ensures DownSends(tables, self, level) == own + below
    ensures forall m :: m in own ==> m.level == level
  {
    own, below := RingSends(PeersAt(tables, level), self, level, 0, 0), DownSends(tables, self, level - 1);
    LevelKept(PeersAt(tables, level), self, level, 0, 0);
  }

  lemma {:induction false} SentDown(tables: seq<Ring>, self: NodeId, level: int, m: Msg)
    ensures m in DownSends(tables, self, level) <==>
              0 <= m.level <= level && m in RingSends(PeersAt(tables, m.level), self, m.level, 0, 0)
    decreases level
  {
    if level >= 0 {
      var own, below := OneLevelDown(tables, self, level);
      SentDown(tables, self, level - 1, m);
      assert m in own + below <==> m in own || m in below;
    }
  }

  ghost predicate LevelsFall(out: seq<Msg>, level: int) {
    && (forall j :: 0 <= j < |out| ==> out[j].level <= level)
    && forall j, k :: 0 <= j < k < |out| ==> out[j].level >= out[k].level
  }

  lemma FallingOn(own: seq<Msg>, below: seq<Msg>, level: nat)
    requires (forall m :: m in own ==> m.level == level) && LevelsFall(below, level - 1)
    ensures LevelsFall(own + below, level)
  {
    var out := own + below;
    forall j | 0 <= j < |out| ensures j < |own| ==> out[j].level == level {
      assert j < |own| ==> out[j] in own;
    }
  }

  lemma {:induction false} DownFalls(tables: seq<Ring>, self: NodeId, level: int)
    ensures LevelsFall(DownSends(tables, self, level), level)
    decreases level
  {
    if level >= 0 {
      var own, below := OneLevelDown(tables, self, level);
      DownFalls(tables, self, level - 1);
      FallingOn(own, below, level);
    }
  }

  /** Starting the rings from `level` down: as order 0, in each of them, the upper ones first. */
  lemma {:induction false} DownSendsAre(tables: seq<Ring>, self: NodeId, level: int)
    ensures var out := DownSends(tables, self, level);
            && (forall m :: m in out <==> 0 <= m.level <= level && m in RingSends(PeersAt(tables, m.level), self, m.level, 0, 0))
            && forall j, k :: 0 <= j < k < |out| ==> out[j].level >= out[k].level
  {
    var out := DownSends(tables, self, level);
    forall m ensures m in out <==> 0 <= m.level <= level && m in RingSends(PeersAt(tables, m.level), self, m.level, 0, 0) {
      SentDown(tables, self, level, m);
    }
    DownFalls(tables, self, level);
  }

  /** Each ring's messages follow each other as they do within the ring alone. */
  lemma {:induction false} DownSendsByLevel(tables: seq<Ring>, self: NodeId, level: nat, l: nat) returns (a: seq<Msg>, b: seq<Msg>)
    requires l <= level
    ensures DownSends(tables, self, level) == a + RingSends(PeersAt(tables, l), self, l, 0, 0) + b
    decreases level
  {
    var own, below := OneLevelDown(tables, self, level);
    if l == level {
      a, b := [], below;
      assert a + own == own;
    } else {
      a, b := DownSendsByLevel(tables, self, level - 1, l);
      Regroup(own, a, RingSends(PeersAt(tables, l), self, l, 0, 0), b);
      a := own + a;
    }
  }

  lemma Regroup(own: seq<Msg>, a: seq<Msg>, ring: seq<Msg>, b: seq<Msg>)
    ensures own + (a + ring + b) == (own + a) + ring + b
  {
  }

  /** A climbing message: of type 0 it has arrived one level up, of type 1 at its own. */
  lemma {:induction false} ClimbingIs(tables: seq<Ring>, self: NodeId, m: Msg, out: seq<Msg>, a: nat)
    requires m.order >= -1 && m.level >= 0 && ((m.kind == 0 && a == m.level + 1) || (m.kind == 1 && a == m.level))
    ensures Reacts(tables, self, m, out) <==>
              if a >= |tables| then out == []
              else if a + 1 == |tables| || tables[a + 1].contacts == {} then out == DownSends(tables, self, a)
              else exists c :: c in tables[a + 1].contacts && out == [Msg(c, self, 0, a, -1)]
  {
    assert RingSends([], self, a, NO_ORDER, 0) == [];
    if a + 1 < |tables| && |out| == 1 {
      assert out == [out[0]];
    }
  }

  /** A message within a ring: of type 2 the receiver also starts all rings below. */
  lemma {:induction false} RingMessageIs(tables: seq<Ring>, self: NodeId, m: Msg, out: seq<Msg>)
    requires m.order >= 0 && m.level < |tables| && (m.kind == 2 || m.kind == 5)
    ensures Reacts(tables, self, m, out) <==>
              out == RingSends(tables[m.level].peers, self, m.level, m.order, 0) + if m.kind == 2 then DownSends(tables, self, m.level - 1) else []
  {
    assert RingSends(tables[m.level].peers, self, m.level, m.order, 0) + [] == RingSends(tables[m.level].peers, self, m.level, m.order, 0);
  }
}

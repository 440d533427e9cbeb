/**
 * Runs of one broadcast over a whole network: messages in flight are delivered in any order.
 * What every delivery keeps: for every member of every ring, the ring broadcasts started by
 * others are matched one for one by messages delivered to it or still leading to it.
 */
module BroadcastRun {
  import opened Sums
  import opened Overlay
  import opened RingBalance
  import opened Topology
  import opened SpanningTree

  /** Messages sent but not yet delivered, and the messages delivered so far, oldest first. */
  datatype State = State(flight: seq<Msg>, log: seq<Msg>)

  ghost predicate Init(net: Network, origin: NodeId, s: State) {
    && origin in net
    && s.log == []
    && |s.flight| == 1
    && s.flight[0].to in ContactsAt(net[origin], 0)
    && s.flight[0] == Msg(s.flight[0].to, origin, UP_SAME_LEVEL, 0, NO_ORDER)
  }

  /** Message number `i` in flight is delivered and its receiver sends `out`. */
  ghost predicate Delivers(net: Network, s: State, i: nat, out: seq<Msg>, s': State) {
    && i < |s.flight|
    && s.flight[i].to in net
    && IsBroadcastMsg(s.flight[i])
    && Reacts(net[s.flight[i].to], s.flight[i].to, s.flight[i], out)
    && s' == State(s.flight[..i] + s.flight[i + 1..] + out, s.log + [s.flight[i]])
  }

  ghost predicate Step(net: Network, s: State, s': State) {
    exists i: nat, out: seq<Msg> :: Delivers(net, s, i, out, s')
  }

  ghost predicate IsRun(net: Network, origin: NodeId, run: seq<State>) {
    && run != []
    && Init(net, origin, run[0])
    && forall i :: 0 <= i < |run| - 1 ==> Step(net, run[i], run[i + 1])
  }

  /** What a message of the broadcast can look like. */
  ghost predicate ValidMsg(net: Network, m: Msg) {
    && m.to in net
    && m.order >= NO_ORDER
    && if Climbs(m) then
         && ArrivalLevel(m) < |net[m.to]|
         && m.to in net[m.to][ArrivalLevel(m)].contacts
       else
         && IsRingMsg(m)
         && m.level < |net[m.to]|
         && 0 <= m.order < |net[m.to][m.level].peers|
         && m.kind == KindFor(m.level, m.to)
  }

  // ---------- Weights ----------

  /** 1 when `m` is a ring message of level `k` to `y`. */
  function Reaches(y: NodeId, k: nat): Msg -> nat {
    (m: Msg) => if IsRingMsg(m) && m.to == y && m.level == k then 1 else 0
  }

  /** The receiver of `m` starts, as order 0, a broadcast in its ring of level `k`. */
  predicate StartsRing(net: Network, m: Msg, k: nat) {
    m.to in net && k < |net[m.to]|
    && ((Launches(net[m.to], m) && k <= ArrivalLevel(m)) || (m.kind == WITHIN_AND_DOWN && k < m.level))
  }

  /** 1 when the receiver of `m` is a member of the ring of `y` at level `k`, and starts it. */
  function Starts(net: Network, y: NodeId, k: nat): Msg -> nat {
    (m: Msg) => if StartsRing(net, m, k) && m.to in PeersOf(net, y, k) then 1 else 0
  }

  /** The same, for a receiver other than `y`. */
  function StartsForOthers(net: Network, y: NodeId, k: nat): Msg -> nat {
    (m: Msg) => if StartsRing(net, m, k) && m.to in PeersOf(net, y, k) && m.to != y then 1 else 0
  }

  function PeersOf(net: Network, y: NodeId, k: nat): seq<NodeId> {
    if y in net then PeersAt(net[y], k) else []
  }

  function Climbing(): Msg -> nat {
    (m: Msg) => if Climbs(m) then 1 else 0
  }

  function Launching(net: Network): Msg -> nat {
    (m: Msg) => if m.to in net && Launches(net[m.to], m) then 1 else 0
  }

  // ---------- What one reaction keeps ----------

  /** Messages for another ring, or of another level, do not lead to `y` at level `k`. */
  lemma {:induction false} OtherRing(peers: seq<NodeId>, k: nat, y: NodeId, out: seq<Msg>)
    requires forall m :: m in out ==> m.level != k || m.to !in peers
    ensures Sum(out, Covers(peers, k, y)) == 0
  {
    SumZero(out, Covers(peers, k, y));
  }

  /** Two rings of one level with a common member are one ring. */
  lemma CommonMember(net: Network, top: nat, y: NodeId, k: nat, z: NodeId, c: NodeId)
    requires WellFormed(net, top) && y in net && k < |net[y]| && z in net && k < |net[z]|
    requires c in net[y][k].peers && c in net[z][k].peers
    ensures net[y][k] == net[z][k] && z in net[y][k].peers
  {
    SameRing(net, top, y, k, c);
    SameRing(net, top, z, k, c);
  }

  lemma SameRing(net: Network, top: nat, y: NodeId, k: nat, z: NodeId)
    requires WellFormed(net, top) && y in net && k < |net[y]|
    requires z in net[y][k].peers
    ensures z in net && k < |net[z]| && net[z][k] == net[y][k] && y in net[y][k].peers && Distinct(net[y][k].peers)
  {
    assert NodeOk(net, top, y);
    assert RingOk(net, top, y, k);
    assert SharesRing(net, net[y][k], k, z);
  }

  /** Sending in the ring of `z` at level `l` with order `order`, seen from `y` at level `k`. */
  lemma SendsSeenFrom(net: Network, top: nat, y: NodeId, k: nat, z: NodeId, l: nat, order: nat)
    requires WellFormed(net, top) && y in net && k < |net[y]| && z in net && l < |net[z]|
    requires order < |net[z][l].peers|
    ensures Sum(RingSends(net[z][l].peers, z, l, order, 0), Covers(net[y][k].peers, k, y))
         == if l == k && LeadsOn(net[y][k].peers, z, order, y) && z != y then 1 else 0
  {
    var out := RingSends(net[z][l].peers, z, l, order, 0);
    assert NodeOk(net, top, z);
    assert RingOk(net, top, z, l);
    if l == k && z in net[y][k].peers {
      SameRing(net, top, y, k, z);
      ForwardingBalance(net[y][k].peers, z, k, order, y);
    } else {
      forall m | m in out ensures m.level != k || m.to !in net[y][k].peers {
        RingSendsShape(net[z][l].peers, z, l, order, 0, m);
        if l == k && m.to in net[y][k].peers {
          CommonMember(net, top, y, k, z, m.to);
        }
      }
      OtherRing(net[y][k].peers, k, y, out);
    }
  }

  /** Starting the rings of levels `l` down to 0 leads to `y` once, when its ring is among them. */
  lemma {:induction false} DownSeenFrom(net: Network, top: nat, y: NodeId, k: nat, z: NodeId, l: int)
    requires WellFormed(net, top) && y in net && k < |net[y]| && z in net && -1 <= l < |net[z]|
    ensures Sum(DownSends(net[z], z, l), Covers(net[y][k].peers, k, y))
         == if k <= l && z in net[y][k].peers && z != y then 1 else 0
    decreases l
  {
    if l >= 0 {
      DownSeenFrom(net, top, y, k, z, l - 1);
      var f := Covers(net[y][k].peers, k, y);
      SumConcat(RingSends(net[z][l].peers, z, l, 0, 0), DownSends(net[z], z, l - 1), f);
      assert NodeOk(net, top, z);
      assert RingOk(net, top, z, l);
      SendsSeenFrom(net, top, y, k, z, l, 0);
      if l == k && z in net[y][k].peers {
        SameRing(net, top, y, k, z);
        StarterLeadsToAll(net[y][k].peers, z, y);
      }
    }
  }

  /** A climbing message that goes on climbing is one message to a contact of the ring above. */
  lemma ClimbingOn(net: Network, top: nat, m: Msg, out: seq<Msg>)
    requires WellFormed(net, top) && ValidMsg(net, m) && Climbs(m) && !Launches(net[m.to], m)
    requires Reacts(net[m.to], m.to, m, out)
    ensures |out| == 1 && Climbs(out[0]) && ValidMsg(net, out[0]) && out[0].kind == UP_FROM_BELOW
    ensures out[0].level == ArrivalLevel(m) && ArrivalLevel(m) < top
  {
    var l := ArrivalLevel(m);
    assert NodeOk(net, top, m.to);
    assert l + 1 < |net[m.to]|;
    assert RingOk(net, top, m.to, l + 1);
    SameRing(net, top, m.to, l + 1, out[0].to);
  }

  /** A message launches exactly in the top ring. */
  lemma LaunchIsAtTop(net: Network, top: nat, m: Msg)
    requires WellFormed(net, top) && ValidMsg(net, m) && Climbs(m)
    ensures Launches(net[m.to], m) <==> ArrivalLevel(m) == top
    ensures Launches(net[m.to], m) ==> |net[m.to]| == top + 1
  {
    var l := ArrivalLevel(m);
    assert NodeOk(net, top, m.to);
    assert RingOk(net, top, m.to, l);
    if l < top {
      assert l + 1 < |net[m.to]|;
      assert RingOk(net, top, m.to, l + 1);
    }
  }

  lemma {:induction false} DownSendsValid(net: Network, top: nat, z: NodeId, l: int, m: Msg)
    requires WellFormed(net, top) && z in net && -1 <= l < |net[z]|
    requires m in DownSends(net[z], z, l)
    ensures ValidMsg(net, m) && IsRingMsg(m) && m.order >= 1 && m.level <= l && m.from == z && m.to != z
    decreases l
  {
    if l >= 0 {
      if m in RingSends(net[z][l].peers, z, l, 0, 0) {
        RingSendsValid(net, top, z, l, 0, m);
      } else {
        DownSendsValid(net, top, z, l - 1, m);
      }
    }
  }

  lemma RingSendsValid(net: Network, top: nat, z: NodeId, l: nat, order: nat, m: Msg)
    requires WellFormed(net, top) && z in net && l < |net[z]|
    requires m in RingSends(net[z][l].peers, z, l, order, 0)
    ensures ValidMsg(net, m) && IsRingMsg(m) && m.order > order && m.level == l && m.from == z && m.to != z
  {
    assert NodeOk(net, top, z);
    assert RingOk(net, top, z, l);
    RingSendsShape(net[z][l].peers, z, l, order, 0, m);
    SameRing(net, top, z, l, m.to);
  }

  lemma ReactionValid(net: Network, top: nat, m: Msg, out: seq<Msg>, m': Msg)
    requires WellFormed(net, top) && ValidMsg(net, m) && Reacts(net[m.to], m.to, m, out) && m' in out
    ensures ValidMsg(net, m')
    ensures !Climbs(m) || Launches(net[m.to], m) ==> IsRingMsg(m')
  {
    if Climbs(m) {
      if Launches(net[m.to], m) {
        DownSendsValid(net, top, m.to, ArrivalLevel(m), m');
      } else {
        ClimbingOn(net, top, m, out);
      }
    } else if m' in RingSends(net[m.to][m.level].peers, m.to, m.level, m.order, 0) {
      RingSendsValid(net, top, m.to, m.level, m.order, m');
    } else {
      DownSendsValid(net, top, m.to, m.level - 1, m');
    }
  }

  lemma OwnRing(net: Network, top: nat, y: NodeId, k: nat)
    requires WellFormed(net, top) && y in net && k < |net[y]|
    ensures k <= top && y in net[y][k].peers && RingOk(net, top, y, k)
  {
    assert NodeOk(net, top, y);
    assert RingOk(net, top, y, k);
  }

  lemma LaunchBalance(net: Network, top: nat, m: Msg, out: seq<Msg>, y: NodeId, k: nat)
    requires WellFormed(net, top) && ValidMsg(net, m) && Reacts(net[m.to], m.to, m, out)
    requires y in net && k < |net[y]| && Launches(net[m.to], m)
    ensures Sum(out, Covers(net[y][k].peers, k, y)) == StartsForOthers(net, y, k)(m)
  {
    DownSeenFrom(net, top, y, k, m.to, ArrivalLevel(m));
    LaunchIsAtTop(net, top, m);
    OwnRing(net, top, y, k);
    if m.to in net[y][k].peers {
      SameRing(net, top, y, k, m.to);
    }
  }

  lemma ClimbBalance(net: Network, top: nat, m: Msg, out: seq<Msg>, y: NodeId, k: nat)
    requires WellFormed(net, top) && ValidMsg(net, m) && Reacts(net[m.to], m.to, m, out)
    requires y in net && k < |net[y]| && Climbs(m) && !Launches(net[m.to], m)
    ensures Sum(out, Covers(net[y][k].peers, k, y)) == 0 == StartsForOthers(net, y, k)(m)
  {
    ClimbingOn(net, top, m, out);
    SumZero(out, Covers(net[y][k].peers, k, y));
  }

  lemma ForwardBalance(net: Network, top: nat, m: Msg, out: seq<Msg>, y: NodeId, k: nat)
    requires WellFormed(net, top) && ValidMsg(net, m) && Reacts(net[m.to], m.to, m, out)
    requires y in net && k < |net[y]| && !Climbs(m)
    ensures Sum(out, Covers(net[y][k].peers, k, y))
         == (if m.level == k && LeadsOn(net[y][k].peers, m.to, m.order, y) && m.to != y then 1 else 0)
          + StartsForOthers(net, y, k)(m)
  {
    SendsSeenFrom(net, top, y, k, m.to, m.level, m.order);
    OwnRing(net, top, y, k);
    if m.to in net[y][k].peers {
      SameRing(net, top, y, k, m.to);
    }
    if m.kind == WITHIN_AND_DOWN {
      var ring := RingSends(net[m.to][m.level].peers, m.to, m.level, m.order, 0);
      SumConcat(ring, DownSends(net[m.to], m.to, m.level - 1), Covers(net[y][k].peers, k, y));
      DownSeenFrom(net, top, y, k, m.to, m.level - 1);
    }
  }

  /**
   * One delivery: the messages sent lead to `y` as often as the message delivered did, less its
   * delivery to `y`, plus the ring broadcast its receiver starts.
   */
  lemma ReactionBalance(net: Network, top: nat, m: Msg, out: seq<Msg>, y: NodeId, k: nat)
    requires WellFormed(net, top) && ValidMsg(net, m) && Reacts(net[m.to], m.to, m, out)
    requires y in net && k < |net[y]|
    ensures Sum(out, Covers(net[y][k].peers, k, y)) + Reaches(y, k)(m)
         == Covers(net[y][k].peers, k, y)(m) + StartsForOthers(net, y, k)(m)
  {
    if Climbs(m) {
      if Launches(net[m.to], m) {
        LaunchBalance(net, top, m, out, y, k);
      } else {
        ClimbBalance(net, top, m, out, y, k);
      }
    } else {
      ForwardBalance(net, top, m, out, y, k);
      OwnRing(net, top, y, k);
      if m.to == y && m.level == k {
        LeadsToItself(net[y][k].peers, y, m.order);
      }
    }
  }
}

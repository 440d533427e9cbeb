/** Every run of a broadcast ends, and only ends when no message is in flight. */
module BroadcastTermination {
  import opened Sums
  import opened Overlay
  import opened RingBalance
  import opened Topology
  import opened BroadcastRun
  import opened BroadcastCoverage

  function Power(b: nat, e: nat): nat {
    if e == 0 then 1 else b * Power(b, e - 1)
  }

  lemma {:induction false} PowerPositive(b: nat, e: nat)
    requires b >= 1
    ensures Power(b, e) >= 1
  {
    if e > 0 {
      PowerPositive(b, e - 1);
      Scale(1, Power(b, e - 1), b);
    }
  }

  lemma Scale(x: nat, y: nat, b: nat)
    requires x <= y
    ensures b * x <= b * y && x * b <= y * b
  {
  }

  lemma {:induction false} PowerMonotone(b: nat, d: nat, e: nat)
    requires b >= 1 && d <= e
    ensures Power(b, d) <= Power(b, e)
    decreases e
  {
    if d < e {
      PowerMonotone(b, d, e - 1);
      PowerPositive(b, e - 1);
      assert b * Power(b, e - 1) >= 1 * Power(b, e - 1) by {
        Scale(1, b, Power(b, e - 1));
      }
    }
  }

  ghost function Size(net: Network): nat {
    |net.Keys|
  }

  /** A ring has no more members than the network has nodes. */
  lemma {:induction false} PeersWithin(peers: seq<NodeId>, n: nat, nodes: set<NodeId>)
    requires n <= |peers| && Distinct(peers) && forall i :: 0 <= i < n ==> peers[i] in nodes
    ensures n <= |nodes|
    decreases n
  {
    if n > 0 {
      forall i | 0 <= i < n - 1 ensures peers[i] in nodes - {peers[n - 1]} {
        assert Position(peers, peers[i]) == i;
      }
      PeersWithin(peers, n - 1, nodes - {peers[n - 1]});
    }
  }

  lemma RingWithin(net: Network, top: nat, x: NodeId, l: nat)
    requires WellFormed(net, top) && x in net && l < |net[x]|
    ensures |net[x][l].peers| <= Size(net)
  {
    OwnRing(net, top, x, l);
    var peers := net[x][l].peers;
    forall i | 0 <= i < |peers| ensures peers[i] in net.Keys {
      assert peers[i] in peers;
    }
    PeersWithin(peers, |peers|, net.Keys);
  }

  /** `l` blocks of `n`. */
  ghost function Blocks(l: nat, n: nat): nat {
    if l == 0 then 0 else Blocks(l - 1, n) + n
  }

  lemma {:induction false} BlocksMonotone(l: nat, l': nat, n: nat)
    requires l' < l
    ensures Blocks(l', n) + n <= Blocks(l, n)
    decreases l
  {
    if l' < l - 1 {
      BlocksMonotone(l - 1, l', n);
    }
  }

  /** How far a message is from the end: levels left to go down, and orders left in its ring. */
  ghost function Rank(net: Network, top: nat, m: Msg): nat {
    if Climbs(m) then Blocks(top + 1, Size(net) + 1) + if ArrivalLevel(m) <= top then top - ArrivalLevel(m) else 0
    else Blocks(m.level, Size(net) + 1) + if 0 <= m.order <= Size(net) then Size(net) - m.order else 0
  }

  ghost function Branching(net: Network, top: nat): nat {
    Blocks(top + 1, Size(net)) + 1
  }

  ghost function Weight(net: Network, top: nat): Msg -> nat {
    (m: Msg) => Power(Branching(net, top), Rank(net, top, m))
  }

  /** What is left to do in a state. */
  ghost function Measure(net: Network, top: nat, s: State): nat {
    Sum(s.flight, Weight(net, top))
  }

  lemma {:induction false} DownSendsCount(net: Network, top: nat, z: NodeId, l: int)
    requires WellFormed(net, top) && z in net && -1 <= l < |net[z]|
    ensures |DownSends(net[z], z, l)| <= Blocks(l + 1, Size(net))
    decreases l
  {
    if l >= 0 {
      DownSendsCount(net, top, z, l - 1);
      RingWithin(net, top, z, l);
      RingSendsCount(net[z][l].peers, z, l, 0, 0);
    }
  }

  /** Sending in at most `levels` rings stays below the branching bound. */
  lemma WithinBranching(net: Network, top: nat, count: nat, levels: nat)
    requires count <= Blocks(levels, Size(net)) && levels <= top + 1
    ensures count < Branching(net, top)
  {
    if levels < top + 1 {
      BlocksMonotone(top + 1, levels, Size(net));
    }
  }

  lemma ForwardCount(net: Network, top: nat, m: Msg, out: seq<Msg>)
    requires WellFormed(net, top) && ValidMsg(net, m) && Reacts(net[m.to], m.to, m, out) && !Climbs(m)
    ensures |out| <= Blocks(m.level + 1, Size(net))
  {
    OwnRing(net, top, m.to, m.level);
    RingWithin(net, top, m.to, m.level);
    RingSendsCount(net[m.to][m.level].peers, m.to, m.level, m.order, 0);
    DownSendsCount(net, top, m.to, m.level - 1);
  }

  lemma ReactionCount(net: Network, top: nat, m: Msg, out: seq<Msg>)
    requires WellFormed(net, top) && ValidMsg(net, m) && Reacts(net[m.to], m.to, m, out)
    ensures |out| < Branching(net, top)
  {
    if !Climbs(m) {
      OwnRing(net, top, m.to, m.level);
      ForwardCount(net, top, m, out);
      WithinBranching(net, top, |out|, m.level + 1);
    } else if Launches(net[m.to], m) {
      LaunchIsAtTop(net, top, m);
      DownSendsCount(net, top, m.to, ArrivalLevel(m));
      WithinBranching(net, top, |out|, top + 1);
    } else {
      ClimbingOn(net, top, m, out);
      OwnRing(net, top, m.to, 0);
      RingWithin(net, top, m.to, 0);
      assert Blocks(1, Size(net)) == Blocks(0, Size(net)) + Size(net);
      WithinBranching(net, top, 1, 1);
    }
  }

  lemma ForwardRanksLower(net: Network, top: nat, m: Msg, out: seq<Msg>, m': Msg)
    requires WellFormed(net, top) && ValidMsg(net, m) && Reacts(net[m.to], m.to, m, out) && m' in out && !Climbs(m)
    ensures Rank(net, top, m') < Rank(net, top, m)
  {
    var z := m.to;
    OwnRing(net, top, z, m.level);
    RingWithin(net, top, z, m.level);
    if m' in RingSends(net[z][m.level].peers, z, m.level, m.order, 0) {
      RingSendsShape(net[z][m.level].peers, z, m.level, m.order, 0, m');
    } else {
      DownSendsValid(net, top, z, m.level - 1, m');
      BlocksMonotone(m.level, m'.level, Size(net) + 1);
    }
  }

  /** Every message sent in reaction to a message ranks lower than it. */
  lemma ReactionRanksLower(net: Network, top: nat, m: Msg, out: seq<Msg>, m': Msg)
    requires WellFormed(net, top) && ValidMsg(net, m) && Reacts(net[m.to], m.to, m, out) && m' in out
    ensures Rank(net, top, m') < Rank(net, top, m)
  {
    if !Climbs(m) {
      ForwardRanksLower(net, top, m, out, m');
    } else if Launches(net[m.to], m) {
      LaunchIsAtTop(net, top, m);
      DownSendsValid(net, top, m.to, ArrivalLevel(m), m');
      BlocksMonotone(top + 1, m'.level, Size(net) + 1);
    } else {
      ClimbingOn(net, top, m, out);
    }
  }

  lemma {:induction false} BoundedSum<T>(s: seq<T>, f: T -> nat, w: nat)
    requires forall x :: x in s ==> f(x) <= w
    ensures Sum(s, f) <= |s| * w
  {
    if s != [] {
      BoundedSum(s[1..], f, w);
      assert (|s| - 1) * w + w == |s| * w;
    }
  }

  lemma FewerOfLess(b: nat, n: nat, w: nat)
    requires n < b && w >= 1
    ensures n * w < b * w
  {
    Scale(n, b - 1, w);
    assert (b - 1) * w + w == b * w;
  }

  lemma ReactionWeighsLess(net: Network, top: nat, m: Msg, out: seq<Msg>)
    requires WellFormed(net, top) && ValidMsg(net, m) && Reacts(net[m.to], m.to, m, out)
    ensures Sum(out, Weight(net, top)) < Weight(net, top)(m)
  {
    var b, rank := Branching(net, top), Rank(net, top, m);
    if out == [] {
      PowerPositive(b, rank);
    } else {
      ReactionRanksLower(net, top, m, out, out[0]);
      var w := Power(b, rank - 1);
      forall m' | m' in out ensures Weight(net, top)(m') <= w {
        ReactionRanksLower(net, top, m, out, m');
        PowerMonotone(b, Rank(net, top, m'), rank - 1);
      }
      BoundedSum(out, Weight(net, top), w);
      ReactionCount(net, top, m, out);
      PowerPositive(b, rank - 1);
      FewerOfLess(b, |out|, w);
    }
  }

  /** Each delivery leaves strictly less to do. */
  lemma StepDecreases(net: Network, top: nat, s: State, s': State)
    requires WellFormed(net, top) && Invariant(net, s) && Step(net, s, s')
    ensures Measure(net, top, s') < Measure(net, top, s)
  {
    var i: nat, out: seq<Msg> :| Delivers(net, s, i, out, s');
    FlightSum(s, i, out, Weight(net, top));
    assert s.flight[i] in s.flight;
    ReactionWeighsLess(net, top, s.flight[i], out);
  }

  /** Every run ends: it has no more steps than the measure of its first state. */
  lemma {:induction false} RunsTerminate(net: Network, top: nat, origin: NodeId, run: seq<State>, n: nat)
    requires WellFormed(net, top) && IsRun(net, origin, run) && n < |run|
    ensures n + Measure(net, top, run[n]) <= Measure(net, top, run[0])
    ensures Measure(net, top, run[0]) == Power(Branching(net, top), Blocks(top + 1, Size(net) + 1) + top)
  {
    if n == 0 {
      var m := run[0].flight[0];
      assert run[0].flight == [m];
      SumSingle(m, Weight(net, top));
    } else {
      RunsTerminate(net, top, origin, run, n - 1);
      RunKeepsInvariant(net, top, origin, run, n - 1);
      StepDecreases(net, top, run[n - 1], run[n]);
    }
  }

  /** A message in flight can always be delivered: a run stops only when none is left. */
  lemma MessagesCanBeDelivered(net: Network, top: nat, s: State, i: nat) returns (s': State)
    requires WellFormed(net, top) && Invariant(net, s) && i < |s.flight|
    ensures Step(net, s, s')
  {
    var m := s.flight[i];
    assert m in s.flight;
    var z, l := m.to, ArrivalLevel(m);
    var out: seq<Msg>;
    assert NodeOk(net, top, z);
    if Climbs(m) && !Launches(net[z], m) {
      var c :| c in ContactsAt(net[z], l + 1);
      out := [Msg(c, z, UP_FROM_BELOW, l, NO_ORDER)];
    } else if Climbs(m) {
      out := DownSends(net[z], z, l);
    } else if m.kind == WITHIN_AND_DOWN {
      out := RingSends(PeersAt(net[z], m.level), z, m.level, m.order, 0) + DownSends(net[z], z, m.level - 1);
    } else {
      out := RingSends(PeersAt(net[z], m.level), z, m.level, m.order, 0);
    }
    s' := State(s.flight[..i] + s.flight[i + 1..] + out, s.log + [m]);
    assert Reacts(net[z], z, m, out);
    assert Delivers(net, s, i, out, s');
  }
}

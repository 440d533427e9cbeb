/**
 * What a whole broadcast costs.  Every delivery adds one message to the log, so the length of a
 * finished run is the number of climbing messages, one per level, and of messages within rings.
 */
module BroadcastCost {
  import opened Sums
  import opened Overlay
  import opened RingBalance
  import opened Topology
  import opened BroadcastRun
  import opened BroadcastCoverage

  // ---------- Messages within rings ----------

  /** A ring with its level. */
  type LevelRing = (nat, Ring)

  ghost function RingsOf(net: Network, x: NodeId): set<LevelRing>
    requires x in net
  {
    set k: nat | 0 <= k < |net[x]| :: (k, net[x][k])
  }

  ghost function AllRings(net: Network): set<LevelRing> {
    set x, r | x in net && r in RingsOf(net, x) :: r
  }

  /** What one ring costs: its members but one, as often as it is started. */
  ghost function RingCost(net: Network, top: nat, launcher: NodeId, r: LevelRing): int {
    if r.1.peers != [] && r.1.peers[0] in net && r.0 < |net[r.1.peers[0]]|
    then (|r.1.peers| - 1) * StartsOf(net, top, launcher, r.1.peers[0], r.0)
    else 0
  }

  ghost function RingCosts(net: Network, top: nat, launcher: NodeId, rings: set<LevelRing>): int
    decreases |rings|
  {
    if rings == {} then 0
    else
      var r :| r in rings;
      RingCost(net, top, launcher, r) + RingCosts(net, top, launcher, rings - {r})
  }

  ghost predicate ComesWithin(net: Network, rings: set<LevelRing>, m: Msg) {
    IsRingMsg(m) && m.to in net && m.level < |net[m.to]| && (m.level, net[m.to][m.level]) in rings
  }

  /** 1 when `m` is a message within one of the rings. */
  ghost function WithinRings(net: Network, rings: set<LevelRing>): Msg -> nat {
    (m: Msg) => if ComesWithin(net, rings, m) then 1 else 0
  }

  function RingMessages(): Msg -> nat {
    (m: Msg) => if IsRingMsg(m) then 1 else 0
  }

  lemma OneRing(net: Network, top: nat, y: NodeId, k: nat, m: Msg)
    requires WellFormed(net, top) && y in net && k < |net[y]| && ValidMsg(net, m)
    ensures InRing(net[y][k].peers, k, |net[y][k].peers|)(m) == WithinRings(net, {(k, net[y][k])})(m)
  {
    OwnRing(net, top, y, k);
    if IsRingMsg(m) && m.level == k {
      if m.to in net[y][k].peers {
        SameRing(net, top, y, k, m.to);
      } else {
        OwnRing(net, top, m.to, k);
      }
    }
  }

  lemma OneRingTotal(net: Network, top: nat, s: State, launcher: NodeId, r: LevelRing)
    requires WellFormed(net, top) && Quiescent(net, s, launcher) && r in AllRings(net)
    ensures Sum(s.log, WithinRings(net, {r})) == RingCost(net, top, launcher, r)
  {
    var y :| y in net && r in RingsOf(net, y);
    var k: nat :| k < |net[y]| && r == (k, net[y][k]);
    OwnRing(net, top, y, k);
    var first := r.1.peers[0];
    SameRing(net, top, y, k, first);
    RingMessageTotal(net, top, s, launcher, first, k);
    RingStartsAre(net, top, s, launcher, first, k);
    forall m | m in s.log ensures InRing(r.1.peers, k, |r.1.peers|)(m) == WithinRings(net, {r})(m) {
      OneRing(net, top, y, k, m);
    }
    SumEqual(s.log, InRing(r.1.peers, k, |r.1.peers|), WithinRings(net, {r}));
  }

  lemma SplitRings(net: Network, log: seq<Msg>, rings: set<LevelRing>, r: LevelRing)
    requires r in rings
    ensures Sum(log, WithinRings(net, rings)) == Sum(log, WithinRings(net, {r})) + Sum(log, WithinRings(net, rings - {r}))
  {
    SumAdds(log, WithinRings(net, rings), WithinRings(net, {r}), WithinRings(net, rings - {r}));
  }

  lemma {:induction false} RingsTotal(net: Network, top: nat, s: State, launcher: NodeId, rings: set<LevelRing>)
    requires WellFormed(net, top) && Quiescent(net, s, launcher)
    requires rings <= AllRings(net)
    ensures Sum(s.log, WithinRings(net, rings)) == RingCosts(net, top, launcher, rings)
    decreases |rings|
  {
    if rings == {} {
      SumZero(s.log, WithinRings(net, {}));
    } else {
      var r :| r in rings && RingCosts(net, top, launcher, rings)
                             == RingCost(net, top, launcher, r) + RingCosts(net, top, launcher, rings - {r});
      RingsTotal(net, top, s, launcher, rings - {r});
      OneRingTotal(net, top, s, launcher, r);
      SplitRings(net, s.log, rings, r);
    }
  }

  /** All rings together cost, for each, its size less one, times its starts. */
  lemma RingMessagesInAll(net: Network, top: nat, s: State, launcher: NodeId)
    requires WellFormed(net, top) && Quiescent(net, s, launcher)
    ensures Sum(s.log, RingMessages()) == RingCosts(net, top, launcher, AllRings(net))
  {
    RingsTotal(net, top, s, launcher, AllRings(net));
    forall m | m in s.log ensures RingMessages()(m) == WithinRings(net, AllRings(net))(m) {
      if IsRingMsg(m) {
        assert (m.level, net[m.to][m.level]) in RingsOf(net, m.to);
      }
    }
    SumEqual(s.log, RingMessages(), WithinRings(net, AllRings(net)));
  }

  // ---------- Climbing messages ----------

  /** How many levels a climbing message has yet to arrive at. */
  function LevelsLeft(top: nat): Msg -> nat {
    (m: Msg) => if Climbs(m) && ArrivalLevel(m) <= top then top + 1 - ArrivalLevel(m) else 0
  }

  ghost predicate ClimbCounted(top: nat, s: State) {
    Sum(s.log, Climbing()) + Sum(s.flight, LevelsLeft(top)) == top + 1
  }

  lemma InitClimb(net: Network, top: nat, origin: NodeId, s: State)
    requires Init(net, origin, s)
    ensures ClimbCounted(top, s)
  {
    assert s.flight == [s.flight[0]];
    SumSingle(s.flight[0], LevelsLeft(top));
  }

  /** What one delivery leaves to climb. */
  lemma ReactionClimbs(net: Network, top: nat, m: Msg, out: seq<Msg>)
    requires WellFormed(net, top) && ValidMsg(net, m) && Reacts(net[m.to], m.to, m, out)
    ensures Sum(out, LevelsLeft(top)) + Climbing()(m) == LevelsLeft(top)(m)
  {
    if Climbs(m) && !Launches(net[m.to], m) {
      ClimbingOn(net, top, m, out);
      assert out == [out[0]];
      SumSingle(out[0], LevelsLeft(top));
    } else {
      forall m' | m' in out ensures LevelsLeft(top)(m') == 0 {
        ReactionValid(net, top, m, out, m');
      }
      SumZero(out, LevelsLeft(top));
      if Climbs(m) {
        LaunchIsAtTop(net, top, m);
      }
    }
  }

  lemma StepClimbs(net: Network, top: nat, s: State, s': State)
    requires WellFormed(net, top) && Invariant(net, s) && Step(net, s, s') && ClimbCounted(top, s)
    ensures ClimbCounted(top, s') && |s'.log| == |s.log| + 1
  {
    var i: nat, out: seq<Msg> :| Delivers(net, s, i, out, s');
    ReactionClimbs(net, top, s.flight[i], out);
    FlightSum(s, i, out, LevelsLeft(top));
    LogSum(s, s.flight[i], Climbing());
  }

  lemma {:induction false} RunClimbs(net: Network, top: nat, origin: NodeId, run: seq<State>, n: nat)
    requires WellFormed(net, top) && IsRun(net, origin, run) && n < |run|
    ensures ClimbCounted(top, run[n]) && |run[n].log| == n
  {
    if n == 0 {
      InitClimb(net, top, origin, run[0]);
    } else {
      RunClimbs(net, top, origin, run, n - 1);
      RunKeepsInvariant(net, top, origin, run, n - 1);
      StepClimbs(net, top, run[n - 1], run[n]);
    }
  }

  lemma {:induction false} SumOnes(s: seq<Msg>)
    requires forall m :: m in s ==> Climbs(m) || IsRingMsg(m)
    ensures Sum(s, Climbing()) + Sum(s, RingMessages()) == |s|
  {
    if s != [] {
      assert s[0] in s;
      SumOnes(s[1..]);
    }
  }

  /**
   * In every finished run one message arrives at each level on the way up, and every delivery is one
   * step.  The messages within rings are, for each ring, its size less one, times its starts: that
   * gives the exact length of the run for any launcher.
   */
  lemma RunLength(net: Network, top: nat, origin: NodeId, run: seq<State>) returns (launcher: NodeId)
    requires WellFormed(net, top) && IsRun(net, origin, run) && run[|run| - 1].flight == []
    ensures Quiescent(net, run[|run| - 1], launcher)
    ensures Sum(run[|run| - 1].log, Climbing()) == top + 1
    ensures |run| == 1 + (top + 1) + RingCosts(net, top, launcher, AllRings(net))
  {
    var s := run[|run| - 1];
    RunKeepsInvariant(net, top, origin, run, |run| - 1);
    RunClimbs(net, top, origin, run, |run| - 1);
    launcher := LauncherExists(net, top, s);
    SumOnes(s.log);
    RingMessagesInAll(net, top, s, launcher);
  }

  /** The sizes of the rings, less one for each. */
  ghost function SizesLessOne(rings: set<LevelRing>): int
    decreases |rings|
  {
    if rings == {} then 0
    else
      var r :| r in rings;
      |r.1.peers| - 1 + SizesLessOne(rings - {r})
  }

  lemma RingCostOnce(net: Network, top: nat, s: State, launcher: NodeId, r: LevelRing)
    requires WellFormed(net, top) && Quiescent(net, s, launcher) && OneStarterEach(net, top, launcher) && r in AllRings(net)
    ensures RingCost(net, top, launcher, r) == |r.1.peers| - 1
  {
    var y :| y in net && r in RingsOf(net, y);
    var k: nat :| k < |net[y]| && r == (k, net[y][k]);
    OwnRing(net, top, y, k);
    SameRing(net, top, y, k, r.1.peers[0]);
    OneStarterStarts(net, top, s, launcher, r.1.peers[0], k);
    RingStartsAre(net, top, s, launcher, r.1.peers[0], k);
  }

  lemma {:induction false} CostsOnce(net: Network, top: nat, s: State, launcher: NodeId, rings: set<LevelRing>)
    requires WellFormed(net, top) && Quiescent(net, s, launcher) && OneStarterEach(net, top, launcher)
    requires rings <= AllRings(net)
    ensures Sum(s.log, WithinRings(net, rings)) == SizesLessOne(rings)
    decreases |rings|
  {
    if rings == {} {
      SumZero(s.log, WithinRings(net, {}));
    } else {
      var r :| r in rings && SizesLessOne(rings) == |r.1.peers| - 1 + SizesLessOne(rings - {r});
      CostsOnce(net, top, s, launcher, rings - {r});
      OneRingTotal(net, top, s, launcher, r);
      RingCostOnce(net, top, s, launcher, r);
      SplitRings(net, s.log, rings, r);
    }
  }

  /** When every ring is started once, the messages within rings are the sizes of the rings, less one for each. */
  lemma RingMessagesOnce(net: Network, top: nat, s: State, launcher: NodeId)
    requires WellFormed(net, top) && Quiescent(net, s, launcher) && OneStarterEach(net, top, launcher)
    ensures RingCosts(net, top, launcher, AllRings(net)) == SizesLessOne(AllRings(net))
  {
    CostsOnce(net, top, s, launcher, AllRings(net));
    RingsTotal(net, top, s, launcher, AllRings(net));
  }
}

/**
 * A broadcast, on the tables two nodes work out for themselves, that is launched by the node whose
 * id within the district is not zero: it starts the ring below twice.
 */
module OtherLauncher {
  import opened Sums
  import opened Overlay
  import opened RingBalance
  import opened SpanningTree
  import opened Topology
  import opened BroadcastRun
  import opened BroadcastCoverage
  import opened Structure

  function Lead(region: string): NodeId {
    NodeId(region, 0)
  }

  function Other(region: string): NodeId {
    NodeId(region, 1)
  }

  function Pair(region: string): seq<NodeId> {
    [Lead(region), Other(region)]
  }

  /** One district of two nodes, both of them its contacts, and a city ring above it. */
  ghost function TwoNodes(region: string): Network {
    Formed([region], 2, 2, 2, true)
  }

  function BothRings(region: string): seq<Ring> {
    var ring := Ring({Lead(region), Other(region)}, Pair(region));
    [ring, ring]
  }

  lemma PeersAre(region: string)
    ensures DistrictPeers(region, 2) == Pair(region) && CityPeers([region], 2) == Pair(region)
    ensures FirstOf(Pair(region), 2) == {Lead(region), Other(region)}
  {
    assert DistrictPeers(region, 2) == Pair(region);
    assert CityPeers([region][..0], 2) == [];
    assert [] + Pair(region) == Pair(region);
    assert Pair(region)[..2] == Pair(region);
  }

  lemma NodeIs(region: string, x: NodeId)
    ensures x in TwoNodes(region) <==> x in Pair(region)
    ensures x in Pair(region) ==> TwoNodes(region)[x] == BothRings(region)
  {
    PeersAre(region);
    FormedTables([region], 2, 2, 2, true, x);
  }

  lemma TwoNodesAre(region: string)
    ensures WellFormed(TwoNodes(region), 1)
    ensures forall x: NodeId :: x in TwoNodes(region) <==> x in Pair(region)
    ensures forall x: NodeId :: x in Pair(region) ==> TwoNodes(region)[x] == BothRings(region)
  {
    FormedIsWellFormed([region], 2, 2, 2, true);
    forall x: NodeId ensures x in TwoNodes(region) <==> x in Pair(region)
                     ensures x in Pair(region) ==> TwoNodes(region)[x] == BothRings(region) {
      NodeIs(region, x);
    }
  }

  // ---------- The messages ----------

  function First(region: string): Msg {
    Msg(Other(region), Other(region), 1, 0, -1)
  }

  function Second(region: string): Msg {
    Msg(Other(region), Other(region), 0, 0, -1)
  }

  /** What the launcher sends: within the upper ring, and within the ring below. */
  function Above(region: string): Msg {
    Msg(Lead(region), Other(region), 2, 1, 1)
  }

  function Below(region: string): Msg {
    Msg(Lead(region), Other(region), 5, 0, 1)
  }

  /** What the lead sends within the ring below when it hears from above. */
  function Again(region: string): Msg {
    Msg(Other(region), Lead(region), 5, 0, 1)
  }

  lemma PairSends(region: string, level: nat)
    ensures RingSends(Pair(region), Other(region), level, 0, 0)
         == [Msg(Lead(region), Other(region), KindFor(level, Lead(region)), level, 1)]
    ensures RingSends(Pair(region), Lead(region), level, 0, 0)
         == [Msg(Other(region), Lead(region), WITHIN_ONLY, level, 1)]
    ensures forall x :: x in Pair(region) ==> RingSends(Pair(region), x, level, 1, 0) == []
  {
    var pair := Pair(region);
    assert Pow2(0) == 1 && Pow2(1) == 2;
    assert Position(pair, Lead(region)) == 0 && Position(pair, Other(region)) == 1;
    forall x: NodeId ensures RingSends(pair, x, level, 0, 1) == [] && RingSends(pair, x, level, 1, 0) == [] {
    }
  }

  lemma LauncherSends(region: string)
    ensures DownSends(BothRings(region), Other(region), 1) == [Above(region), Below(region)]
    ensures DownSends(BothRings(region), Lead(region), 0) == [Again(region)]
  {
    PairSends(region, 0);
    PairSends(region, 1);
    var t := BothRings(region);
    assert DownSends(t, Other(region), -1) == [] && DownSends(t, Lead(region), -1) == [];
    assert DownSends(t, Other(region), 0) == [Below(region)] + [];
    assert DownSends(t, Other(region), 1) == [Above(region)] + DownSends(t, Other(region), 0);
  }

  // ---------- The run ----------

  function States(region: string): (run: seq<State>)
    ensures |run| == 6
  {
    [State([First(region)], []),
     State([Second(region)], [First(region)]),
     State([Above(region), Below(region)], [First(region), Second(region)]),
     State([Below(region), Again(region)], [First(region), Second(region), Above(region)]),
     State([Again(region)], [First(region), Second(region), Above(region), Below(region)]),
     State([], [First(region), Second(region), Above(region), Below(region), Again(region)])]
  }

  lemma HeadDelivered(net: Network, s: State, out: seq<Msg>, s': State)
    requires s.flight != [] && s.flight[0].to in net && IsBroadcastMsg(s.flight[0])
    requires Reacts(net[s.flight[0].to], s.flight[0].to, s.flight[0], out)
    requires s' == State(s.flight[1..] + out, s.log + [s.flight[0]])
    ensures Step(net, s, s')
  {
    assert s.flight[..0] + s.flight[1..] + out == s.flight[1..] + out;
    assert Delivers(net, s, 0, out, s');
  }

  lemma OtherClimbs(region: string)
    ensures Step(TwoNodes(region), States(region)[0], States(region)[1])
  {
    TwoNodesAre(region);
    assert Reacts(BothRings(region), Other(region), First(region), [Second(region)]);
    HeadDelivered(TwoNodes(region), States(region)[0], [Second(region)], States(region)[1]);
  }

  lemma OtherStartsSpread(region: string)
    ensures Step(TwoNodes(region), States(region)[1], States(region)[2])
  {
    TwoNodesAre(region);
    LauncherSends(region);
    assert Reacts(BothRings(region), Other(region), Second(region), [Above(region), Below(region)]);
    HeadDelivered(TwoNodes(region), States(region)[1], [Above(region), Below(region)], States(region)[2]);
  }

  lemma LeadHears(region: string)
    ensures Step(TwoNodes(region), States(region)[2], States(region)[3])
  {
    TwoNodesAre(region);
    LauncherSends(region);
    PairSends(region, 1);
    var tables := BothRings(region);
    assert RingSends(PeersAt(tables, 1), Lead(region), 1, 1, 0) == [];
    assert Reacts(tables, Lead(region), Above(region), [] + [Again(region)]);
    HeadDelivered(TwoNodes(region), States(region)[2], [Again(region)], States(region)[3]);
  }

  /** A message within the lower ring that its receiver does not forward. */
  lemma EndsHere(region: string, m: Msg, s: State, s': State)
    requires m.to in Pair(region) && m.kind == WITHIN_ONLY && m.level == 0 && m.order == 1
    requires s.flight != [] && s.flight[0] == m && s' == State(s.flight[1..], s.log + [m])
    ensures Step(TwoNodes(region), s, s')
  {
    TwoNodesAre(region);
    PairSends(region, 0);
    assert PeersAt(BothRings(region), 0) == Pair(region);
    assert s.flight[1..] + [] == s.flight[1..];
    HeadDelivered(TwoNodes(region), s, [], s');
  }

  lemma WayDown(region: string)
    ensures Step(TwoNodes(region), States(region)[3], States(region)[4])
    ensures Step(TwoNodes(region), States(region)[4], States(region)[5])
  {
    EndsHere(region, Below(region), States(region)[3], States(region)[4]);
    EndsHere(region, Again(region), States(region)[4], States(region)[5]);
  }

  lemma StartsWell(region: string)
    ensures Init(TwoNodes(region), Other(region), States(region)[0])
  {
    TwoNodesAre(region);
    assert First(region).to in ContactsAt(BothRings(region), 0);
  }

  lemma FiveSteps<S>(run: seq<S>, step: (S, S) -> bool)
    requires |run| == 6 && step(run[0], run[1]) && step(run[1], run[2]) && step(run[2], run[3])
    requires step(run[3], run[4]) && step(run[4], run[5])
    ensures forall i :: 0 <= i < |run| - 1 ==> step(run[i], run[i + 1])
  {
    forall i | 0 <= i < |run| - 1 ensures step(run[i], run[i + 1]) {
      assert i == 0 || i == 1 || i == 2 || i == 3 || i == 4;
    }
  }

  lemma {:induction false} SixStates(net: Network, origin: NodeId, run: seq<State>)
    requires |run| == 6 && Init(net, origin, run[0]) && Step(net, run[0], run[1]) && Step(net, run[1], run[2])
    requires Step(net, run[2], run[3]) && Step(net, run[3], run[4]) && Step(net, run[4], run[5])
    ensures IsRun(net, origin, run)
  {
    ghost var step := (s: State, t: State) => Step(net, s, t);
    FiveSteps(run, step);
    forall i | 0 <= i < |run| - 1 ensures Step(net, run[i], run[i + 1]) {
      assert step(run[i], run[i + 1]);
    }
  }

  lemma StatesAreRun(region: string)
    ensures IsRun(TwoNodes(region), Other(region), States(region))
  {
    StartsWell(region);
    OtherClimbs(region);
    OtherStartsSpread(region);
    LeadHears(region);
    WayDown(region);
    SixStates(TwoNodes(region), Other(region), States(region));
  }

  lemma OtherLaunches(region: string)
    ensures WellFormed(TwoNodes(region), 1) && Quiescent(TwoNodes(region), States(region)[5], Other(region))
  {
    var net, s := TwoNodes(region), States(region)[5];
    TwoNodesAre(region);
    StatesAreRun(region);
    RunKeepsInvariant(net, 1, Other(region), States(region), 5);
    assert s.log[1] == Second(region);
    assert Launches(BothRings(region), Second(region));
    assert Launching(net)(s.log[1]) == 1;
  }

  /**
   * From the broadcast of the other node on, a finished run: that node launches the spread and starts
   * the ring below, and the lead starts it again when it hears from the ring above.
   */
  lemma RingStartedTwice(region: string)
    ensures IsRun(TwoNodes(region), Other(region), States(region)) && States(region)[5].flight == []
    ensures RingStarts(TwoNodes(region), States(region)[5], Other(region), 0) == 2
    ensures !EveryRingStartedOnce(TwoNodes(region), States(region)[5])
  {
    StatesAreRun(region);
    OtherLaunches(region);
    FormedIsLedByOne([region], 2, 2, 2, true);
    StartedTwice(TwoNodes(region), 1, States(region)[5], Other(region));
  }
}

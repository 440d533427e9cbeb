/**
 * What a broadcast has done once no message is in flight: how often each ring was started, for any
 * number of leads and any launcher; when every node has been reached; and when each ring broadcast
 * ran exactly once.
 */
module BroadcastCoverage {
  import opened Sums
  import opened Overlay
  import opened RingBalance
  import opened Topology
  import opened BroadcastRun

  ghost predicate AllValid(net: Network, ms: seq<Msg>) {
    forall m :: m in ms ==> ValidMsg(net, m)
  }

  /** Ring broadcasts started by others = messages delivered to `y` + messages still leading to `y`. */
  ghost predicate Balanced(net: Network, s: State, y: NodeId, k: nat) {
    Sum(s.log, StartsForOthers(net, y, k)) == Sum(s.log, Reaches(y, k)) + Sum(s.flight, Covers(PeersOf(net, y, k), k, y))
  }

  /** Until the spread is launched exactly one message climbs; it is launched once. */
  ghost predicate OneLaunch(net: Network, s: State) {
    Sum(s.flight, Climbing()) + Sum(s.log, Launching(net)) == 1
  }

  ghost predicate Invariant(net: Network, s: State) {
    && AllValid(net, s.flight) && AllValid(net, s.log)
    && OneLaunch(net, s)
    && forall y, k: nat :: y in net && k < |net[y]| ==> Balanced(net, s, y, k)
  }

  lemma InitInvariant(net: Network, top: nat, origin: NodeId, s: State)
    requires WellFormed(net, top) && Init(net, origin, s)
    ensures Invariant(net, s)
  {
    var m := s.flight[0];
    assert s.flight == [m];
    OwnRing(net, top, origin, 0);
    SameRing(net, top, origin, 0, m.to);
    SumSingle(m, Climbing());
    forall y, k: nat | y in net && k < |net[y]| ensures Balanced(net, s, y, k) {
      SumSingle(m, Covers(PeersOf(net, y, k), k, y));
    }
  }

  lemma FlightSum(s: State, i: nat, out: seq<Msg>, f: Msg -> nat)
    requires i < |s.flight|
    ensures Sum(s.flight[..i] + s.flight[i + 1..] + out, f) + f(s.flight[i]) == Sum(s.flight, f) + Sum(out, f)
  {
    SumWithout(s.flight, i, f);
    SumConcat(s.flight[..i] + s.flight[i + 1..], out, f);
  }

  lemma LogSum(s: State, m: Msg, f: Msg -> nat)
    ensures Sum(s.log + [m], f) == Sum(s.log, f) + f(m)
  {
    SumConcat(s.log, [m], f);
    SumSingle(m, f);
  }

  lemma DeliveryKeepsBalance(net: Network, top: nat, s: State, i: nat, out: seq<Msg>, s': State, y: NodeId, k: nat)
    requires WellFormed(net, top) && Invariant(net, s) && Delivers(net, s, i, out, s')
    requires y in net && k < |net[y]|
    ensures Balanced(net, s', y, k)
  {
    var m := s.flight[i];
    assert Balanced(net, s, y, k);
    ReactionBalance(net, top, m, out, y, k);
    FlightSum(s, i, out, Covers(PeersOf(net, y, k), k, y));
    LogSum(s, m, StartsForOthers(net, y, k));
    LogSum(s, m, Reaches(y, k));
  }

  lemma DeliveryKeepsOneLaunch(net: Network, top: nat, s: State, i: nat, out: seq<Msg>, s': State)
    requires WellFormed(net, top) && Invariant(net, s) && Delivers(net, s, i, out, s')
    ensures OneLaunch(net, s')
  {
    var m := s.flight[i];
    FlightSum(s, i, out, Climbing());
    LogSum(s, m, Launching(net));
    if Climbs(m) && !Launches(net[m.to], m) {
      ClimbingOn(net, top, m, out);
      assert out == [out[0]];
      SumSingle(out[0], Climbing());
    } else {
      forall m' | m' in out ensures Climbing()(m') == 0 {
        ReactionValid(net, top, m, out, m');
      }
      SumZero(out, Climbing());
    }
  }

  lemma StepKeepsInvariant(net: Network, top: nat, s: State, s': State)
    requires WellFormed(net, top) && Invariant(net, s) && Step(net, s, s')
    ensures Invariant(net, s')
  {
    var i: nat, out: seq<Msg> :| Delivers(net, s, i, out, s');
    forall m' | m' in s'.flight ensures ValidMsg(net, m') {
      if m' in out {
        ReactionValid(net, top, s.flight[i], out, m');
      }
    }
    DeliveryKeepsOneLaunch(net, top, s, i, out, s');
    forall y, k: nat | y in net && k < |net[y]| ensures Balanced(net, s', y, k) {
      DeliveryKeepsBalance(net, top, s, i, out, s', y, k);
    }
  }

  lemma {:induction false} RunKeepsInvariant(net: Network, top: nat, origin: NodeId, run: seq<State>, n: nat)
    requires WellFormed(net, top) && IsRun(net, origin, run) && n < |run|
    ensures Invariant(net, run[n])
  {
    if n == 0 {
      InitInvariant(net, top, origin, run[0]);
    } else {
      RunKeepsInvariant(net, top, origin, run, n - 1);
      StepKeepsInvariant(net, top, run[n - 1], run[n]);
    }
  }

  // ---------- Reading the balance at quiescence ----------

  /** `s` is a state of some run in which no message is left in flight; `launcher` launched. */
  ghost predicate Quiescent(net: Network, s: State, launcher: NodeId) {
    && Invariant(net, s) && s.flight == []
    && exists i :: 0 <= i < |s.log| && Launching(net)(s.log[i]) > 0 && s.log[i].to == launcher
  }

  /** How many ring messages of level `k` were delivered to `y`. */
  ghost function Received(s: State, y: NodeId, k: nat): nat {
    Sum(s.log, Reaches(y, k))
  }

  /** How many broadcasts were started in the ring of `y` at level `k`. */
  ghost function RingStarts(net: Network, s: State, y: NodeId, k: nat): nat {
    Sum(s.log, Starts(net, y, k))
  }

  /** 1 when `m` makes `z` start its ring of level `k`. */
  function BeginsBy(net: Network, z: NodeId, k: nat): Msg -> nat {
    (m: Msg) => if m.to == z && StartsRing(net, m, k) then 1 else 0
  }

  /** How often `z` starts its ring of level `k`. */
  ghost function Begins(net: Network, s: State, z: NodeId, k: nat): nat {
    Sum(s.log, BeginsBy(net, z, k))
  }

  /** A sum of 1 has one summand. */
  lemma {:induction false} OneSummand<T>(s: seq<T>, f: T -> nat, i: nat, j: nat)
    requires Sum(s, f) == 1 && i < |s| && j < |s| && f(s[i]) > 0 && f(s[j]) > 0
    ensures i == j
  {
    SumWithout(s, i, f);
    var rest := s[..i] + s[i + 1..];
    if j < i {
      SumHasSummand(rest, j, f);
    } else if i < j {
      assert rest[j - 1] == s[j];
      SumHasSummand(rest, j - 1, f);
    }
  }

  lemma LauncherIsTop(net: Network, top: nat, s: State, launcher: NodeId, m: Msg)
    requires WellFormed(net, top) && Quiescent(net, s, launcher)
    requires m in s.log && m.to in net && Launches(net[m.to], m)
    ensures m.to == launcher && |net[launcher]| == top + 1 && ArrivalLevel(m) == top
  {
    var i :| 0 <= i < |s.log| && Launching(net)(s.log[i]) > 0 && s.log[i].to == launcher;
    var j :| 0 <= j < |s.log| && s.log[j] == m;
    OneSummand(s.log, Launching(net), i, j);
    LaunchIsAtTop(net, top, m);
  }

  lemma LauncherExists(net: Network, top: nat, s: State) returns (launcher: NodeId)
    requires WellFormed(net, top) && Invariant(net, s) && s.flight == []
    ensures Quiescent(net, s, launcher) && launcher in net && |net[launcher]| == top + 1
    ensures exists m :: m in s.log && m.to == launcher
  {
    var i := SumWitness(s.log, Launching(net));
    launcher := s.log[i].to;
    assert s.log[i] in s.log;
    LaunchIsAtTop(net, top, s.log[i]);
  }

  lemma QuiescentLauncher(net: Network, top: nat, s: State, launcher: NodeId)
    requires WellFormed(net, top) && Quiescent(net, s, launcher)
    ensures launcher in net && |net[launcher]| == top + 1
  {
    var i :| 0 <= i < |s.log| && Launching(net)(s.log[i]) > 0 && s.log[i].to == launcher;
    LauncherIsTop(net, top, s, launcher, s.log[i]);
  }

  /** A node gets one message for every start of its ring by others. */
  lemma ReceivedFromOthers(net: Network, top: nat, s: State, launcher: NodeId, y: NodeId, k: nat)
    requires WellFormed(net, top) && Quiescent(net, s, launcher) && y in net && k < |net[y]|
    ensures Received(s, y, k) + Begins(net, s, y, k) == RingStarts(net, s, y, k)
  {
    OwnRing(net, top, y, k);
    assert Balanced(net, s, y, k);
    SumAdds(s.log, Starts(net, y, k), StartsForOthers(net, y, k), BeginsBy(net, y, k));
  }

  lemma OneLevelDown(net: Network, top: nat, s: State, launcher: NodeId, z: NodeId, k: nat, m: Msg)
    requires WellFormed(net, top) && Quiescent(net, s, launcher) && IsLeadAbove(net, k, z) && m in s.log
    ensures BeginsBy(net, z, k)(m) == BeginsBy(net, z, k + 1)(m) + Reaches(z, k + 1)(m)
  {
    if m.to == z {
      assert NodeOk(net, top, z);
      if Launches(net[z], m) {
        LauncherIsTop(net, top, s, launcher, m);
      }
    }
  }

  /** A lead starts a ring as often as its ring one level up is started, by itself or by others. */
  lemma LeadBegins(net: Network, top: nat, s: State, launcher: NodeId, z: NodeId, k: nat)
    requires WellFormed(net, top) && Quiescent(net, s, launcher) && IsLeadAbove(net, k, z)
    ensures Begins(net, s, z, k) == RingStarts(net, s, z, k + 1)
  {
    forall m | m in s.log ensures BeginsBy(net, z, k)(m) == BeginsBy(net, z, k + 1)(m) + Reaches(z, k + 1)(m) {
      OneLevelDown(net, top, s, launcher, z, k, m);
    }
    SumAdds(s.log, BeginsBy(net, z, k), BeginsBy(net, z, k + 1), Reaches(z, k + 1));
    ReceivedFromOthers(net, top, s, launcher, z, k + 1);
  }

  lemma OnlyByLaunch(net: Network, top: nat, s: State, launcher: NodeId, z: NodeId, k: nat, m: Msg)
    requires WellFormed(net, top) && Quiescent(net, s, launcher) && m in s.log
    requires z in net && k < |net[z]| && !IsLeadAbove(net, k, z)
    ensures BeginsBy(net, z, k)(m) == if m.to == z && Launches(net[z], m) then 1 else 0
  {
    assert NodeOk(net, top, z);
    if m.to == z && Launches(net[z], m) {
      LauncherIsTop(net, top, s, launcher, m);
    }
  }

  /** Any other member starts a ring only as the launcher. */
  lemma OthersBegin(net: Network, top: nat, s: State, launcher: NodeId, z: NodeId, k: nat)
    requires WellFormed(net, top) && Quiescent(net, s, launcher)
    requires z in net && k < |net[z]| && !IsLeadAbove(net, k, z)
    ensures Begins(net, s, z, k) == if z == launcher then 1 else 0
  {
    forall m | m in s.log
      ensures BeginsBy(net, z, k)(m) == if z == launcher then Launching(net)(m) else 0
    {
      OnlyByLaunch(net, top, s, launcher, z, k, m);
      if m.to in net && Launches(net[m.to], m) {
        LauncherIsTop(net, top, s, launcher, m);
      }
    }
    if z == launcher {
      SumEqual(s.log, BeginsBy(net, z, k), Launching(net));
    } else {
      SumZero(s.log, BeginsBy(net, z, k));
    }
  }

  // ---------- The starts of a ring, member by member ----------

  /** 1 when `m` makes one of the first `j` peers start the ring. */
  function StartsFirst(net: Network, peers: seq<NodeId>, k: nat, j: nat): Msg -> nat {
    (m: Msg) => if StartsRing(net, m, k) && m.to in peers && Position(peers, m.to) < j then 1 else 0
  }

  ghost function BeginsAt(net: Network, s: State, k: nat): NodeId -> nat {
    (z: NodeId) => Begins(net, s, z, k)
  }

  lemma SumOfLast(peers: seq<NodeId>, j: nat, f: NodeId -> nat)
    requires 0 < j <= |peers|
    ensures Sum(peers[..j], f) == Sum(peers[..j - 1], f) + f(peers[j - 1])
  {
    assert peers[..j] == peers[..j - 1] + [peers[j - 1]];
    SumConcat(peers[..j - 1], [peers[j - 1]], f);
    SumSingle(peers[j - 1], f);
  }

  lemma {:induction false} FirstPeersBegin(net: Network, s: State, peers: seq<NodeId>, k: nat, j: nat)
    requires Distinct(peers) && j <= |peers|
    ensures Sum(s.log, StartsFirst(net, peers, k, j)) == Sum(peers[..j], BeginsAt(net, s, k))
    decreases j
  {
    if j == 0 {
      SumZero(s.log, StartsFirst(net, peers, k, 0));
    } else {
      FirstPeersBegin(net, s, peers, k, j - 1);
      SumOfLast(peers, j, BeginsAt(net, s, k));
      assert Position(peers, peers[j - 1]) == j - 1;
      SumAdds(s.log, StartsFirst(net, peers, k, j), StartsFirst(net, peers, k, j - 1), BeginsBy(net, peers[j - 1], k));
    }
  }

  /** A ring is started as often as its members start it. */
  lemma MembersBegin(net: Network, top: nat, s: State, y: NodeId, k: nat)
    requires WellFormed(net, top) && y in net && k < |net[y]|
    ensures RingStarts(net, s, y, k) == Sum(net[y][k].peers, BeginsAt(net, s, k))
  {
    var peers := net[y][k].peers;
    OwnRing(net, top, y, k);
    FirstPeersBegin(net, s, peers, k, |peers|);
    assert peers[..|peers|] == peers;
    SumEqual(s.log, Starts(net, y, k), StartsFirst(net, peers, k, |peers|));
  }

  /**
   * How often a ring is started, worked out from the tables and the launcher: the top ring once, any
   * other ring as often as the rings above of its leads, and once more by a launcher that is no lead.
   */
  ghost function StartsOf(net: Network, top: nat, launcher: NodeId, y: NodeId, k: nat): nat
    requires y in net && k < |net[y]|
    decreases if k < top then top - k else 0, 0
  {
    if k >= top then 1 else Sum(net[y][k].peers, TimesAt(net, top, launcher, k))
  }

  /** How often a member starts its ring of level `k`. */
  ghost function TimesAt(net: Network, top: nat, launcher: NodeId, k: nat): NodeId -> nat
    requires k < top
    decreases top - k - 1, 1
  {
    (z: NodeId) =>
      if IsLeadAbove(net, k, z) then StartsOf(net, top, launcher, z, k + 1) else if z == launcher then 1 else 0
  }

  lemma {:induction false} OnlyOne<T(!new)>(s: seq<T>, i: nat, f: T -> nat)
    requires i < |s| && forall j :: 0 <= j < |s| && j != i ==> f(s[j]) == 0
    ensures Sum(s, f) == f(s[i])
  {
    SumWithout(s, i, f);
    SumZero(s[..i] + s[i + 1..], f);
  }

  /** The top ring is started once, by the launcher. */
  lemma TopStartedOnce(net: Network, top: nat, s: State, launcher: NodeId, y: NodeId)
    requires WellFormed(net, top) && Quiescent(net, s, launcher) && y in net && |net[y]| == top + 1
    ensures RingStarts(net, s, y, top) == 1
  {
    var peers := net[y][top].peers;
    OwnRing(net, top, y, top);
    QuiescentLauncher(net, top, s, launcher);
    OwnRing(net, top, launcher, top);
    MembersBegin(net, top, s, y, top);
    var i := Position(peers, launcher);
    forall j | 0 <= j < |peers| ensures BeginsAt(net, s, top)(peers[j]) == if j == i then 1 else 0 {
      MemberBeginsTop(net, top, s, launcher, y, j);
      assert Position(peers, peers[j]) == j;
    }
    OnlyOne(peers, i, BeginsAt(net, s, top));
  }

  lemma MemberBeginsTop(net: Network, top: nat, s: State, launcher: NodeId, y: NodeId, j: nat)
    requires WellFormed(net, top) && Quiescent(net, s, launcher) && y in net && |net[y]| == top + 1 && j < |net[y][top].peers|
    ensures Begins(net, s, net[y][top].peers[j], top) == if net[y][top].peers[j] == launcher then 1 else 0
  {
    var z := net[y][top].peers[j];
    SameRing(net, top, y, top, z);
    assert NodeOk(net, top, z);
    OthersBegin(net, top, s, launcher, z, top);
  }

  /** In every finished run each ring was started exactly that often. */
  lemma {:induction false} RingStartsAre(net: Network, top: nat, s: State, launcher: NodeId, y: NodeId, k: nat)
    requires WellFormed(net, top) && Quiescent(net, s, launcher) && y in net && k < |net[y]|
    ensures RingStarts(net, s, y, k) == StartsOf(net, top, launcher, y, k)
    decreases if k < top then top - k else 0
  {
    OwnRing(net, top, y, k);
    assert NodeOk(net, top, y);
    if k == top {
      TopStartedOnce(net, top, s, launcher, y);
    } else {
      MembersBegin(net, top, s, y, k);
      forall z | z in net[y][k].peers ensures BeginsAt(net, s, k)(z) == TimesAt(net, top, launcher, k)(z) {
        if IsLeadAbove(net, k, z) {
          RingStartsAre(net, top, s, launcher, z, k + 1);
        }
        MemberTimes(net, top, s, launcher, y, k, z);
      }
      SumEqual(net[y][k].peers, BeginsAt(net, s, k), TimesAt(net, top, launcher, k));
    }
  }

  lemma {:induction false} MemberTimes(net: Network, top: nat, s: State, launcher: NodeId, y: NodeId, k: nat, z: NodeId)
    requires WellFormed(net, top) && Quiescent(net, s, launcher) && y in net && k < |net[y]| && k < top && z in net[y][k].peers
    requires IsLeadAbove(net, k, z) ==> RingStarts(net, s, z, k + 1) == StartsOf(net, top, launcher, z, k + 1)
    ensures BeginsAt(net, s, k)(z) == TimesAt(net, top, launcher, k)(z)
  {
    SameRing(net, top, y, k, z);
    if IsLeadAbove(net, k, z) {
      LeadBegins(net, top, s, launcher, z, k);
    } else {
      OthersBegin(net, top, s, launcher, z, k);
    }
  }

  // ---------- Which rings are started, and which exactly once ----------

  /** `c` starts the ring: it leads it, or it is the launcher. */
  ghost predicate IsStarter(net: Network, launcher: NodeId, y: NodeId, k: nat, c: NodeId)
    requires y in net && k < |net[y]|
  {
    c in net[y][k].peers && (c == launcher || IsLeadAbove(net, k, c))
  }

  ghost predicate SomeStarter(net: Network, launcher: NodeId, y: NodeId, k: nat)
    requires y in net && k < |net[y]|
  {
    exists c :: IsStarter(net, launcher, y, k, c)
  }

  ghost predicate OneStarter(net: Network, launcher: NodeId, y: NodeId, k: nat)
    requires y in net && k < |net[y]|
  {
    exists c :: IsStarter(net, launcher, y, k, c) && forall c' :: IsStarter(net, launcher, y, k, c') ==> c' == c
  }

  ghost predicate SomeStarterEach(net: Network, top: nat, launcher: NodeId) {
    forall y, k: nat :: y in net && k < |net[y]| && k < top ==> SomeStarter(net, launcher, y, k)
  }

  ghost predicate OneStarterEach(net: Network, top: nat, launcher: NodeId) {
    forall y, k: nat :: y in net && k < |net[y]| && k < top ==> OneStarter(net, launcher, y, k)
  }

  ghost predicate EveryRingStarted(net: Network, s: State) {
    forall y, k: nat :: y in net && k < |net[y]| ==> RingStarts(net, s, y, k) >= 1
  }

  ghost predicate EveryRingStartedOnce(net: Network, s: State) {
    forall y, k: nat :: y in net && k < |net[y]| ==> RingStarts(net, s, y, k) == 1
  }

  /** What one member of a ring adds to its starts. */
  lemma MemberBegins(net: Network, top: nat, s: State, launcher: NodeId, y: NodeId, k: nat, z: NodeId)
    requires WellFormed(net, top) && Quiescent(net, s, launcher) && y in net && k < |net[y]| && z in net[y][k].peers
    ensures !IsStarter(net, launcher, y, k, z) ==> Begins(net, s, z, k) == 0
    ensures IsLeadAbove(net, k, z) ==> Begins(net, s, z, k) == RingStarts(net, s, z, k + 1)
    ensures z == launcher && !IsLeadAbove(net, k, z) ==> Begins(net, s, z, k) == 1
  {
    SameRing(net, top, y, k, z);
    if IsLeadAbove(net, k, z) {
      LeadBegins(net, top, s, launcher, z, k);
    } else {
      OthersBegin(net, top, s, launcher, z, k);
    }
  }

  /** With a starter for every ring, every ring is started. */
  lemma {:induction false} StarterStarts(net: Network, top: nat, s: State, launcher: NodeId, y: NodeId, k: nat)
    requires WellFormed(net, top) && Quiescent(net, s, launcher) && y in net && k < |net[y]|
    requires SomeStarterEach(net, top, launcher)
    ensures RingStarts(net, s, y, k) >= 1
    decreases if k < top then top - k else 0
  {
    OwnRing(net, top, y, k);
    assert NodeOk(net, top, y);
    if k == top {
      TopStartedOnce(net, top, s, launcher, y);
    } else {
      assert SomeStarter(net, launcher, y, k);
      var c :| IsStarter(net, launcher, y, k, c);
      MemberBegins(net, top, s, launcher, y, k, c);
      if IsLeadAbove(net, k, c) {
        StarterStarts(net, top, s, launcher, c, k + 1);
      }
      MembersBegin(net, top, s, y, k);
      SumHasSummand(net[y][k].peers, Position(net[y][k].peers, c), BeginsAt(net, s, k));
    }
  }

  lemma StartedHasStarter(net: Network, top: nat, s: State, launcher: NodeId, y: NodeId, k: nat)
    requires WellFormed(net, top) && Quiescent(net, s, launcher) && y in net && k < |net[y]|
    requires RingStarts(net, s, y, k) >= 1
    ensures SomeStarter(net, launcher, y, k)
  {
    var peers := net[y][k].peers;
    MembersBegin(net, top, s, y, k);
    var i := SumWitness(peers, BeginsAt(net, s, k));
    MemberBegins(net, top, s, launcher, y, k, peers[i]);
    assert IsStarter(net, launcher, y, k, peers[i]);
  }

  /** When no message is left: every ring was started if and only if every ring below the top has a starter. */
  lemma EveryRingStartedIff(net: Network, top: nat, s: State, launcher: NodeId)
    requires WellFormed(net, top) && Quiescent(net, s, launcher)
    ensures EveryRingStarted(net, s) <==> SomeStarterEach(net, top, launcher)
  {
    if EveryRingStarted(net, s) {
      forall y, k: nat | y in net && k < |net[y]| && k < top ensures SomeStarter(net, launcher, y, k) {
        assert RingStarts(net, s, y, k) >= 1;
        StartedHasStarter(net, top, s, launcher, y, k);
      }
    }
    if SomeStarterEach(net, top, launcher) {
      forall y, k: nat | y in net && k < |net[y]| ensures RingStarts(net, s, y, k) >= 1 {
        StarterStarts(net, top, s, launcher, y, k);
      }
    }
  }

  /** With exactly one starter for every ring, every ring is started exactly once. */
  lemma {:induction false} OneStarterStarts(net: Network, top: nat, s: State, launcher: NodeId, y: NodeId, k: nat)
    requires WellFormed(net, top) && Quiescent(net, s, launcher) && y in net && k < |net[y]|
    requires OneStarterEach(net, top, launcher)
    ensures RingStarts(net, s, y, k) == 1
    decreases if k < top then top - k else 0
  {
    var peers := net[y][k].peers;
    OwnRing(net, top, y, k);
    assert NodeOk(net, top, y);
    if k == top {
      TopStartedOnce(net, top, s, launcher, y);
    } else {
      assert OneStarter(net, launcher, y, k);
      var c :| IsStarter(net, launcher, y, k, c) && forall c' :: IsStarter(net, launcher, y, k, c') ==> c' == c;
      MembersBegin(net, top, s, y, k);
      MemberBegins(net, top, s, launcher, y, k, c);
      if IsLeadAbove(net, k, c) {
        OneStarterStarts(net, top, s, launcher, c, k + 1);
      }
      var i := Position(peers, c);
      forall j | 0 <= j < |peers| && j != i ensures BeginsAt(net, s, k)(peers[j]) == 0 {
        assert Position(peers, peers[j]) == j;
        MemberBegins(net, top, s, launcher, y, k, peers[j]);
      }
      OnlyOne(peers, i, BeginsAt(net, s, k));
    }
  }

  /** When every ring is started once, so is each ring by each of its starters. */
  lemma StartedOnceHasOne(net: Network, top: nat, s: State, launcher: NodeId, y: NodeId, k: nat)
    requires WellFormed(net, top) && Quiescent(net, s, launcher) && y in net && k < |net[y]| && k < top
    requires EveryRingStartedOnce(net, s)
    ensures OneStarter(net, launcher, y, k)
  {
    var peers := net[y][k].peers;
    assert RingStarts(net, s, y, k) == 1;
    StartedHasStarter(net, top, s, launcher, y, k);
    var c :| IsStarter(net, launcher, y, k, c);
    MembersBegin(net, top, s, y, k);
    StarterBeginsOnce(net, top, s, launcher, y, k, c);
    forall c' | IsStarter(net, launcher, y, k, c') ensures c' == c {
      StarterBeginsOnce(net, top, s, launcher, y, k, c');
      OneSummand(peers, BeginsAt(net, s, k), Position(peers, c), Position(peers, c'));
    }
  }

  lemma StarterBeginsOnce(net: Network, top: nat, s: State, launcher: NodeId, y: NodeId, k: nat, c: NodeId)
    requires WellFormed(net, top) && Quiescent(net, s, launcher) && y in net && k < |net[y]|
    requires EveryRingStartedOnce(net, s) && IsStarter(net, launcher, y, k, c)
    ensures Begins(net, s, c, k) == 1
  {
    MemberBegins(net, top, s, launcher, y, k, c);
    if IsLeadAbove(net, k, c) {
      assert RingStarts(net, s, c, k + 1) == 1;
    }
  }

  // ---------- The main results ----------

  /**
   * When no message is left: each ring was started exactly once if and only if each ring below the
   * top has exactly one member among its leads and the launcher.
   */
  lemma ExactlyOnceIff(net: Network, top: nat, s: State, launcher: NodeId)
    requires WellFormed(net, top) && Quiescent(net, s, launcher)
    ensures EveryRingStartedOnce(net, s) <==> OneStarterEach(net, top, launcher)
  {
    if EveryRingStartedOnce(net, s) {
      forall y, k: nat | y in net && k < |net[y]| && k < top ensures OneStarter(net, launcher, y, k) {
        StartedOnceHasOne(net, top, s, launcher, y, k);
      }
    }
    if OneStarterEach(net, top, launcher) {
      forall y, k: nat | y in net && k < |net[y]| ensures RingStarts(net, s, y, k) == 1 {
        OneStarterStarts(net, top, s, launcher, y, k);
      }
    }
  }

  /** Then every node gets exactly one message in each ring it does not start, and none in the others. */
  lemma ExactlyOncePerRing(net: Network, top: nat, s: State, launcher: NodeId, y: NodeId, k: nat)
    requires WellFormed(net, top) && Quiescent(net, s, launcher) && y in net && k < |net[y]|
    requires OneStarterEach(net, top, launcher)
    ensures RingStarts(net, s, y, k) == 1
    ensures Received(s, y, k) == if IsStarter(net, launcher, y, k, y) then 0 else 1
  {
    ExactlyOnceIff(net, top, s, launcher);
    OwnRing(net, top, y, k);
    ReceivedFromOthers(net, top, s, launcher, y, k);
    if IsStarter(net, launcher, y, k, y) {
      StarterBeginsOnce(net, top, s, launcher, y, k, y);
    } else {
      MemberBegins(net, top, s, launcher, y, k, y);
    }
  }

  lemma LeadIsOneStarter(net: Network, top: nat, launcher: NodeId, y: NodeId, k: nat)
    requires y in net && k < |net[y]| && k < top && HasLead(net, y, k) && AtMostOneLead(net, y, k)
    requires launcher in net && |net[launcher]| == top + 1 && IsLead(launcher)
    ensures OneStarter(net, launcher, y, k)
  {
    var c :| c in net[y][k].peers && IsLeadAbove(net, k, c);
    assert IsStarter(net, launcher, y, k, c);
    forall c' | IsStarter(net, launcher, y, k, c') ensures c' == c {
      assert IsLeadAbove(net, k, c');
      SameLead(net, y, k, c, c');
    }
  }

  lemma SameLead(net: Network, y: NodeId, k: nat, c: NodeId, c': NodeId)
    requires y in net && k < |net[y]| && AtMostOneLead(net, y, k)
    requires c in net[y][k].peers && c' in net[y][k].peers && IsLeadAbove(net, k, c) && IsLeadAbove(net, k, c')
    ensures c == c'
  {
  }

  lemma TwoStarters(net: Network, top: nat, launcher: NodeId, k: nat)
    requires launcher in net && k < |net[launcher]| && launcher in net[launcher][k].peers && HasLead(net, launcher, k)
    requires !IsLead(launcher)
    ensures !OneStarter(net, launcher, launcher, k)
  {
    var c :| c in net[launcher][k].peers && IsLeadAbove(net, k, c);
    assert IsStarter(net, launcher, launcher, k, c) && IsStarter(net, launcher, launcher, k, launcher);
  }

  /** With one lead for each ring, that means one level or a launcher of single-id zero. */
  lemma OneStarterIff(net: Network, top: nat, launcher: NodeId)
    requires WellFormed(net, top) && LedByOne(net, top) && launcher in net && |net[launcher]| == top + 1
    ensures OneStarterEach(net, top, launcher) <==> top == 0 || IsLead(launcher)
  {
    if IsLead(launcher) {
      forall y, k: nat | y in net && k < |net[y]| && k < top ensures OneStarter(net, launcher, y, k) {
        assert HasLead(net, y, k) && AtMostOneLead(net, y, k);
        LeadIsOneStarter(net, top, launcher, y, k);
      }
    } else if top > 0 {
      OwnRing(net, top, launcher, top - 1);
      assert HasLead(net, launcher, top - 1);
      TwoStarters(net, top, launcher, top - 1);
    }
  }

  /** Any other launcher starts the ring below it a second time. */
  lemma StartedTwice(net: Network, top: nat, s: State, launcher: NodeId)
    requires WellFormed(net, top) && LedByOne(net, top) && Quiescent(net, s, launcher) && top > 0 && !IsLead(launcher)
    ensures launcher in net && top <= |net[launcher]| && RingStarts(net, s, launcher, top - 1) == 2
  {
    QuiescentLauncher(net, top, s, launcher);
    OwnRing(net, top, launcher, top - 1);
    assert HasLead(net, launcher, top - 1) && AtMostOneLead(net, launcher, top - 1);
    var k, peers := top - 1, net[launcher][top - 1].peers;
    var c :| c in peers && IsLeadAbove(net, k, c);
    MembersBegin(net, top, s, launcher, k);
    assert NodeOk(net, top, c);
    MemberBegins(net, top, s, launcher, launcher, k, c);
    TopStartedOnce(net, top, s, launcher, c);
    MemberBegins(net, top, s, launcher, launcher, k, launcher);
    forall j | 0 <= j < |peers| && j != Position(peers, c) && j != Position(peers, launcher)
      ensures BeginsAt(net, s, k)(peers[j]) == 0
    {
      assert Position(peers, peers[j]) == j;
      MemberBegins(net, top, s, launcher, launcher, k, peers[j]);
    }
    OnlyTwo(peers, Position(peers, c), Position(peers, launcher), BeginsAt(net, s, k));
  }

  lemma {:induction false} OnlyTwo(s: seq<NodeId>, i: nat, j: nat, f: NodeId -> nat)
    requires i < |s| && j < |s| && i != j && forall l :: 0 <= l < |s| && l != i && l != j ==> f(s[l]) == 0
    ensures Sum(s, f) == f(s[i]) + f(s[j])
  {
    SumWithout(s, i, f);
    var rest := s[..i] + s[i + 1..];
    OnlyOne(rest, if j < i then j else j - 1, f);
  }

  ghost predicate HasReceived(s: State, y: NodeId) {
    exists m :: m in s.log && m.to == y
  }

  lemma PositiveTallyReceived(s: State, y: NodeId, f: Msg -> nat)
    requires Sum(s.log, f) > 0 && forall m :: f(m) > 0 ==> m.to == y
    ensures HasReceived(s, y)
  {
    var i := SumWitness(s.log, f);
    assert s.log[i] in s.log;
  }

  /** When every ring was started, every node of the network has received the message. */
  lemma StartedReachesAll(net: Network, top: nat, s: State, launcher: NodeId, y: NodeId)
    requires WellFormed(net, top) && Quiescent(net, s, launcher) && EveryRingStarted(net, s) && y in net
    ensures HasReceived(s, y)
  {
    assert NodeOk(net, top, y);
    assert RingStarts(net, s, y, 0) >= 1;
    ReceivedFromOthers(net, top, s, launcher, y, 0);
    if Received(s, y, 0) > 0 {
      PositiveTallyReceived(s, y, Reaches(y, 0));
    } else {
      PositiveTallyReceived(s, y, BeginsBy(net, y, 0));
    }
  }

  /** With a lead for every ring every node receives the message, whichever contact launched the spread. */
  lemma EveryNodeReceives(net: Network, top: nat, origin: NodeId, run: seq<State>, y: NodeId)
    requires WellFormed(net, top) && Led(net, top) && IsRun(net, origin, run) && run[|run| - 1].flight == []
    requires y in net
    ensures HasReceived(run[|run| - 1], y)
  {
    var s := run[|run| - 1];
    RunKeepsInvariant(net, top, origin, run, |run| - 1);
    var launcher := LauncherExists(net, top, s);
    forall y, k: nat | y in net && k < |net[y]| && k < top ensures SomeStarter(net, launcher, y, k) {
      assert HasLead(net, y, k);
      var c :| c in net[y][k].peers && IsLeadAbove(net, k, c);
      assert IsStarter(net, launcher, y, k, c);
    }
    EveryRingStartedIff(net, top, s, launcher);
    StartedReachesAll(net, top, s, launcher, y);
  }

  // ---------- The messages of one ring ----------

  /** 1 when `m` is a message of a ring of level `k` to one of the first `j` peers. */
  function InRing(peers: seq<NodeId>, k: nat, j: nat): Msg -> nat {
    (m: Msg) => if IsRingMsg(m) && m.level == k && m.to in peers && Position(peers, m.to) < j then 1 else 0
  }

  lemma {:induction false} FirstPeersReceive(net: Network, top: nat, s: State, launcher: NodeId, y: NodeId, k: nat, j: nat)
    requires WellFormed(net, top) && Quiescent(net, s, launcher) && y in net && k < |net[y]| && j <= |net[y][k].peers|
    ensures var peers := net[y][k].peers;
            Sum(s.log, InRing(peers, k, j)) + Sum(peers[..j], BeginsAt(net, s, k)) == j * RingStarts(net, s, y, k)
    decreases j
  {
    var peers := net[y][k].peers;
    OwnRing(net, top, y, k);
    if j == 0 {
      SumZero(s.log, InRing(peers, k, 0));
    } else {
      var z := peers[j - 1];
      FirstPeersReceive(net, top, s, launcher, y, k, j - 1);
      assert Position(peers, z) == j - 1;
      SumAdds(s.log, InRing(peers, k, j), InRing(peers, k, j - 1), Reaches(z, k));
      SumOfLast(peers, j, BeginsAt(net, s, k));
      SameRing(net, top, y, k, z);
      ReceivedFromOthers(net, top, s, launcher, z, k);
      SumEqual(s.log, Starts(net, z, k), Starts(net, y, k));
      OneMoreTime(j, RingStarts(net, s, y, k));
    }
  }

  lemma OneMoreTime(j: nat, n: nat)
    requires j > 0
    ensures j * n == (j - 1) * n + n
  {
  }

  /** Every start of a ring of `n` members costs `n - 1` messages, whoever launched the spread. */
  lemma RingMessageTotal(net: Network, top: nat, s: State, launcher: NodeId, y: NodeId, k: nat)
    requires WellFormed(net, top) && Quiescent(net, s, launcher) && y in net && k < |net[y]|
    ensures var peers := net[y][k].peers;
            Sum(s.log, InRing(peers, k, |peers|)) == (|peers| - 1) * RingStarts(net, s, y, k)
  {
    var peers := net[y][k].peers;
    FirstPeersReceive(net, top, s, launcher, y, k, |peers|);
    MembersBegin(net, top, s, y, k);
    OwnRing(net, top, y, k);
    assert peers[..|peers|] == peers;
    OneMoreTime(|peers|, RingStarts(net, s, y, k));
  }

  /**
   * The whole statement over runs: when a run has delivered all its messages, some contact of the
   * top ring launched the spread, and every ring was started as often as the tables and the launcher
   * say.  It is once for every ring if and only if each ring below the top has one member among its
   * leads and the launcher, and then every node got exactly one message in each ring it does not
   * start and none in the others.
   */
  lemma RunDeliversOncePerRing(net: Network, top: nat, origin: NodeId, run: seq<State>) returns (launcher: NodeId)
    requires WellFormed(net, top) && IsRun(net, origin, run) && run[|run| - 1].flight == []
    ensures launcher in net && |net[launcher]| == top + 1 && launcher in net[launcher][top].contacts
    ensures HasReceived(run[|run| - 1], launcher) && Quiescent(net, run[|run| - 1], launcher)
    ensures forall y, k: nat :: y in net && k < |net[y]| ==>
              RingStarts(net, run[|run| - 1], y, k) == StartsOf(net, top, launcher, y, k)
    ensures EveryRingStartedOnce(net, run[|run| - 1]) <==> OneStarterEach(net, top, launcher)
    ensures OneStarterEach(net, top, launcher) ==>
              forall y, k: nat :: y in net && k < |net[y]| ==>
                Received(run[|run| - 1], y, k) == if IsStarter(net, launcher, y, k, y) then 0 else 1
  {
    var s := run[|run| - 1];
    RunKeepsInvariant(net, top, origin, run, |run| - 1);
    launcher := LauncherExists(net, top, s);
    LauncherIsContact(net, top, s, launcher);
    ExactlyOnceIff(net, top, s, launcher);
    forall y, k: nat | y in net && k < |net[y]| ensures RingStarts(net, s, y, k) == StartsOf(net, top, launcher, y, k) {
      RingStartsAre(net, top, s, launcher, y, k);
    }
    if OneStarterEach(net, top, launcher) {
      forall y, k: nat | y in net && k < |net[y]|
        ensures Received(s, y, k) == if IsStarter(net, launcher, y, k, y) then 0 else 1
      {
        ExactlyOncePerRing(net, top, s, launcher, y, k);
      }
    }
  }

  lemma LauncherIsContact(net: Network, top: nat, s: State, launcher: NodeId)
    requires WellFormed(net, top) && Quiescent(net, s, launcher)
    ensures launcher in net && |net[launcher]| == top + 1 && launcher in net[launcher][top].contacts
  {
    var i :| 0 <= i < |s.log| && Launching(net)(s.log[i]) > 0 && s.log[i].to == launcher;
    assert s.log[i] in s.log;
    LauncherIsTop(net, top, s, launcher, s.log[i]);
  }
}

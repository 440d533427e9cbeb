/** Draining all queues: everything queued is sent, in order, and protocols take fair turns. */
module MuxDrain {
  import opened Options
  import opened Rlp
  import opened Frames
  import opened Scheduler
  import opened MuxState

  /** A frame put on the wire, with the protocol and the queue it came from. */
  datatype Out = Out(pid: nat, lane: Lane, frame: Frame)

  function Outs(pid: nat, taken: seq<Tagged>): seq<Out> {
    if taken == [] then [] else [Out(pid, taken[0].lane, taken[0].frame)] + Outs(pid, taken[1..])
  }

  /** The frames sent from one queue of one protocol, in order. */
  function SentBy(outs: seq<Out>, pid: nat, lane: Lane): seq<Frame> {
    if outs == [] then []
    else (if outs[0].pid == pid && outs[0].lane == lane then [outs[0].frame] else []) + SentBy(outs[1..], pid, lane)
  }

  lemma {:induction false} SentByConcat(a: seq<Out>, b: seq<Out>, pid: nat, lane: Lane)
    ensures SentBy(a + b, pid, lane) == SentBy(a, pid, lane) + SentBy(b, pid, lane)
  {
    if a == [] {
      assert a + b == b;
    } else {
      assert (a + b)[1..] == a[1..] + b;
      SentByConcat(a[1..], b, pid, lane);
    }
  }

  lemma {:induction false} SentByOuts(pid: nat, taken: seq<Tagged>, pid': nat, lane: Lane)
    ensures SentBy(Outs(pid, taken), pid', lane) == if pid' == pid then OfLane(taken, lane) else []
  {
    if taken != [] {
      SentByOuts(pid, taken[1..], pid', lane);
      var outs := Outs(pid, taken);
      assert outs[1..] == Outs(pid, taken[1..]);
    }
  }

  function Total(protocols: seq<nat>, queues: map<nat, Queues>): nat {
    if protocols == [] then 0
    else (if protocols[0] in queues then queues[protocols[0]].Count() else 0) + Total(protocols[1..], queues)
  }

  lemma {:induction false} TotalShrinks(protocols: seq<nat>, queues: map<nat, Queues>, pid: nat, q: Queues)
    requires DistinctIds(protocols) && pid in queues
    ensures pid in protocols ==> Total(protocols, queues[pid := q]) + queues[pid].Count() == Total(protocols, queues) + q.Count()
    ensures pid !in protocols ==> Total(protocols, queues[pid := q]) == Total(protocols, queues)
  {
    if protocols != [] {
      TotalShrinks(protocols[1..], queues, pid, q);
      assert pid in protocols <==> pid == protocols[0] || pid in protocols[1..];
    }
  }

  lemma {:induction false} LaneCounts(taken: seq<Tagged>)
    ensures |OfLane(taken, Priority)| + |OfLane(taken, Normal)| + |OfLane(taken, Chunked)| == |taken|
  {
    if taken != [] {
      LaneCounts(taken[1..]);
    }
  }

  lemma DrainCounts(q: Queues, window: nat)
    ensures Drain(q, window).queues.Count() + |Drain(q, window).taken| == q.Count()
  {
    var b := Drain(q, window);
    DrainTakesPrefixes(q, 0, window);
    LaneCounts(b.taken);
    assert forall lane :: |OfLane(b.taken, lane) + b.queues.Get(lane)| == |q.Get(lane)|;
    assert |OfLane(b.taken, Priority)| + |b.queues.Get(Priority)| == |q.Get(Priority)|;
    assert |OfLane(b.taken, Normal)| + |b.queues.Get(Normal)| == |q.Get(Normal)|;
    assert |OfLane(b.taken, Chunked)| + |b.queues.Get(Chunked)| == |q.Get(Chunked)|;
  }

  /** One call of pop_frames serves one protocol: what it sends is what leaves its queues. */
  lemma PopServesOne(m: Mux)
    requires MuxOk(m) && m.protocols != []
    ensures MuxOk(PopFrames(m).0) && PopFrames(m).0.protocols == m.protocols
    ensures PopFrames(m).1.Served? ==>
              var pid, b := PopFrames(m).1.pid, PopFrames(m).1.batch;
              && pid in m.protocols
              && PopFrames(m).0.queues == m.queues[pid := b.queues]
              && TookPrefixes(m.queues[pid], 0, b)
              && 0 < TotalSize(b.taken) <= SendWindow(m.protocols, m.queues)
              && Total(m.protocols, PopFrames(m).0.queues) < Total(m.protocols, m.queues)
    ensures PopFrames(m).1.Nothing? ==> PopFrames(m).0.queues == m.queues
  {
    var r := PopFrames(m).1;
    if r.Served? {
      RotationMembers(m.protocols, NextIndex(m.protocols, m.last));
      var w := SendWindow(m.protocols, m.queues);
      DrainTakesPrefixes(m.queues[r.pid], 0, w);
      DrainCounts(m.queues[r.pid], w);
      TotalShrinks(m.protocols, m.queues, r.pid, r.batch.queues);
    }
  }

  /** pop_frames until there is nothing more. */
  function PopAll(m: Mux): (Mux, seq<Out>)
    requires MuxOk(m) && m.protocols != []
    decreases Total(m.protocols, m.queues)
  {
    PopServesOne(m);
    match PopFrames(m)
    case (m', Nothing) => (m', [])
    case (m', Served(pid, b)) =>
      var (m'', rest) := PopAll(m');
      (m'', Outs(pid, b.taken) + rest)
  }

  /**
   * Draining sends every queued frame exactly once, each queue in first-in first-out order, and
   * leaves every queue empty, whenever the queues respect the shares of the activation order.
   */
  lemma {:induction false} PopAllSendsEverything(m: Mux, order: seq<nat>, pid: nat, lane: Lane)
    requires MuxOk(m) && m.protocols != [] && OrderedByActivation(m, order) && pid in m.protocols
    ensures var (m', outs) := PopAll(m);
            && MuxOk(m') && m'.protocols == m.protocols && !Active(m', pid)
            && SentBy(outs, pid, lane) == m.queues[pid].Get(lane)
    decreases Total(m.protocols, m.queues), 1
  {
    PopServesOne(m);
    if PopFrames(m).1.Nothing? {
      if order != [] {
        NeverStuck(m, order);
      }
      assert pid !in order;
    } else {
      var m', r := PopFrames(m).0, PopFrames(m).1;
      PopKeepsOrder(m, order);
      PopAllSendsEverything(m', OrderAfterPop(m', order, r.pid), pid, lane);
      OneServiceSent(m.queues, m'.queues, r.pid, r.batch, PopAll(m').1, pid, lane);
    }
  }

  /** What one service sends, and what is sent later, is what was queued. */
  lemma OneServiceSent(queues: map<nat, Queues>, queues': map<nat, Queues>, served: nat, b: Batch, rest: seq<Out>, pid: nat, lane: Lane)
    requires served in queues && pid in queues && queues' == queues[served := b.queues]
    requires TookPrefixes(queues[served], 0, b)
    requires SentBy(rest, pid, lane) == queues'[pid].Get(lane)
    ensures SentBy(Outs(served, b.taken) + rest, pid, lane) == queues[pid].Get(lane)
  {
    SentByConcat(Outs(served, b.taken), rest, pid, lane);
    SentByOuts(served, b.taken, pid, lane);
  }

  // ---------- Fair turns ----------

  /** The state after `n` calls of pop_frames. */
  function AfterPops(m: Mux, n: nat): (m': Mux)
    requires MuxOk(m) && m.protocols != []
    ensures MuxOk(m') && m'.protocols == m.protocols
    decreases n
  {
    if n == 0 then m
    else
      PopServesOne(m);
      AfterPops(PopFrames(m).0, n - 1)
  }

  /** How many calls until the round robin starts with `pid`. */
  function Turn(m: Mux, pid: nat): (d: nat)
    requires MuxOk(m) && pid in m.protocols
    ensures d < |m.protocols|
  {
    var i, j := NextIndex(m.protocols, m.last), IndexOf(m.protocols, pid);
    if i <= j then j - i else j - i + |m.protocols|
  }

  lemma {:induction false} IndexOfUnique(protocols: seq<nat>, i: nat)
    requires DistinctIds(protocols) && i < |protocols|
    ensures IndexOf(protocols, protocols[i]) == i
  {
    if i > 0 {
      IndexOfUnique(protocols[1..], i - 1);
    }
  }

  /** Each call brings the turn of `pid` one call closer. */
  lemma TurnApproaches(m: Mux, pid: nat)
    requires MuxOk(m) && pid in m.protocols && Turn(m, pid) > 0
    ensures MuxOk(PopFrames(m).0) && PopFrames(m).0.protocols == m.protocols
    ensures Turn(PopFrames(m).0, pid) == Turn(m, pid) - 1
  {
    PopServesOne(m);
    var i := NextIndex(m.protocols, m.last);
    var m' := PopFrames(m).0;
    assert m'.last == m.protocols[i];
    IndexOfUnique(m.protocols, i);
    if m.protocols[i] == m.protocols[|m.protocols| - 1] {
      IndexOfUnique(m.protocols, |m.protocols| - 1);
    }
  }

  lemma WindowGrowsWithPop(m: Mux)
    requires MuxOk(m) && m.protocols != []
    ensures SendWindow(m.protocols, PopFrames(m).0.queues) >= SendWindow(m.protocols, m.queues)
  {
    PopServesOne(m);
    var m' := PopFrames(m).0;
    CountIsCardinality(m.protocols, m.queues);
    CountIsCardinality(m.protocols, m'.queues);
    var n, n' := ActiveCount(m.protocols, m.queues), ActiveCount(m.protocols, m'.queues);
    if PopFrames(m).1.Served? {
      DrainedQueuesShrink(m.queues[PopFrames(m).1.pid], SendWindow(m.protocols, m.queues));
    }
    assert ActiveIn(m.protocols, m'.queues) <= ActiveIn(m.protocols, m.queues);
    SubsetSmaller(ActiveIn(m.protocols, m'.queues), ActiveIn(m.protocols, m.queues));
    WindowShrinks(if n' == 0 then 1 else n', if n == 0 then 1 else n);
  }

  lemma {:induction false} SubsetSmaller(a: set<nat>, b: set<nat>)
    requires a <= b
    ensures |a| <= |b|
    decreases |b|
  {
    if a != {} {
      var x :| x in a;
      SubsetSmaller(a - {x}, b - {x});
    }
  }

  lemma LargerWindowFits(q: Queues, w: nat, w': nat)
    requires HeadFits(q, w) && w <= w'
    ensures HeadFits(q, w')
  {
  }

  /** On its turn a protocol whose head frame fits is the one that is served. */
  lemma ServedOnTurn(m: Mux, pid: nat)
    requires MuxOk(m) && pid in m.protocols && Turn(m, pid) == 0
    requires HeadFits(m.queues[pid], SendWindow(m.protocols, m.queues))
    ensures ServesNow(m, pid)
  {
    var i := NextIndex(m.protocols, m.last);
    assert Rotation(m.protocols, i)[0] == m.protocols[i] == pid;
    DrainsIffHeadFits(m.queues[pid], SendWindow(m.protocols, m.queues));
  }

  predicate ServesNow(m: Mux, pid: nat)
    requires MuxOk(m) && m.protocols != []
  {
    PopFrames(m).1.Served? && PopFrames(m).1.pid == pid
  }

  /** `pid` is served by the n-th call from now (counting from 0). */
  ghost predicate ServesAt(m: Mux, n: nat, pid: nat)
    requires MuxOk(m) && m.protocols != []
  {
    ServesNow(AfterPops(m, n), pid)
  }

  lemma ServesFirst(m: Mux, pid: nat)
    requires MuxOk(m) && m.protocols != [] && ServesNow(m, pid)
    ensures ServesAt(m, 0, pid)
  {
    assert AfterPops(m, 0) == m;
  }

  lemma ServesOneLater(m: Mux, m': Mux, n: nat, pid: nat)
    requires MuxOk(m) && m.protocols != [] && MuxOk(m') && m'.protocols == m.protocols && m' == PopFrames(m).0
    requires ServesAt(m', n, pid)
    ensures ServesAt(m, n + 1, pid)
  {
    assert AfterPops(m, n + 1) == AfterPops(m', n);
  }

  /**
   * With nothing added, a protocol with a frame that fits the window is served within as many
   * calls of pop_frames as there are protocols, however many frames the others hold.
   */
  lemma {:induction false} ServedWithinOneRound(m: Mux, pid: nat) returns (n: nat)
    requires MuxOk(m) && pid in m.protocols
    requires HeadFits(m.queues[pid], SendWindow(m.protocols, m.queues))
    ensures n < |m.protocols| && n <= Turn(m, pid) && ServesAt(m, n, pid)
    decreases Turn(m, pid), 1
  {
    if Turn(m, pid) == 0 {
      ServedOnTurn(m, pid);
    }
    if ServesNow(m, pid) {
      ServesFirst(m, pid);
      n := 0;
    } else {
      n := ServedInALaterCall(m, pid);
    }
  }

  lemma {:induction false} ServedInALaterCall(m: Mux, pid: nat) returns (n: nat)
    requires MuxOk(m) && pid in m.protocols && Turn(m, pid) > 0 && !ServesNow(m, pid)
    requires HeadFits(m.queues[pid], SendWindow(m.protocols, m.queues))
    ensures n < |m.protocols| && n <= Turn(m, pid) && ServesAt(m, n, pid)
    decreases Turn(m, pid), 0
  {
    TurnApproaches(m, pid);
    StillFits(m, pid);
    TurnInRange(m, pid);
    n := ServedWithinOneRound(PopFrames(m).0, pid);
    ServesOneLater(m, PopFrames(m).0, n, pid);
    n := n + 1;
  }

  lemma TurnInRange(m: Mux, pid: nat)
    requires MuxOk(m) && pid in m.protocols
    ensures Turn(m, pid) < |m.protocols|
  {
  }

  /** A head frame that fits still fits after another protocol was served. */
  lemma StillFits(m: Mux, pid: nat)
    requires MuxOk(m) && pid in m.protocols
    requires HeadFits(m.queues[pid], SendWindow(m.protocols, m.queues))
    requires !ServesNow(m, pid)
    ensures MuxOk(PopFrames(m).0) && PopFrames(m).0.protocols == m.protocols
    ensures HeadFits(PopFrames(m).0.queues[pid], SendWindow(m.protocols, PopFrames(m).0.queues))
  {
    PopServesOne(m);
    WindowGrowsWithPop(m);
    LargerWindowFits(m.queues[pid], SendWindow(m.protocols, m.queues), SendWindow(m.protocols, PopFrames(m).0.queues));
  }

  // ---------- Protocol id 0 ----------

  lemma QueuedIsActive(m: Mux, p: Packet, prioritize: bool)
    requires MuxOk(m) && AddPacket(m, p, prioritize).1
    ensures Active(AddPacket(m, p, prioritize).0, p.pid)
  {
    var window := PacketWindow(m.protocols, m.queues, p.pid);
    FramesFitWindow(p, m.sids[p.pid], window);
  }

  /** Two protocols, both idle. */
  function TwoProtocols(): Mux {
    Mux([1, 0], map[1 := Queues([], [], []), 0 := Queues([], [], [])], map[1 := 0, 0 := 0], 0)
  }

  function LargePacket(pid: nat): Packet {
    Packet(pid, 0, Zeros(8143))
  }

  function LargeFrame(pid: nat): Frame {
    WholeFrame(LargePacket(pid), 0)
  }

  lemma LargeFrameSize(pid: nat)
    ensures FrameSize(LargeFrame(pid)) == 8192
  {
    EncodedCmdLength(LargeFrame(pid));
    assert BodySize(LargeFrame(pid)) == 8144;
  }

  lemma AddLarge(m: Mux, pid: nat)
    requires MuxOk(m) && pid in m.protocols && pid < 0x1_0000 && m.sids[pid] == 0
    requires PacketWindow(m.protocols, m.queues, pid) == 8192 && m.queues[pid] == Queues([], [], [])
    ensures AddPacket(m, LargePacket(pid), false)
         == (m.(queues := m.queues[pid := Queues([], [LargeFrame(pid)], [])], sids := m.sids[pid := 1]), true)
  {
    LargeFrameSize(pid);
    assert PacketFrames(LargePacket(pid), 0, 8192) == Some([LargeFrame(pid)]);
    assert [] + [LargeFrame(pid)] == [LargeFrame(pid)];
  }

  lemma CountTwo(queues: map<nat, Queues>)
    requires 0 in queues && 1 in queues
    ensures ActiveCount([1, 0], queues)
         == (if queues[1].Active() then 1 else 0) + (if queues[0].Active() then 1 else 0)
  {
    assert [1, 0][1..] == [0];
    assert [0][1..] == [];
    assert ActiveCount([0], queues) == if queues[0].Active() then 1 else 0;
  }

  /** Both protocols hold one full-window frame. */
  function TwoLarge(): Mux {
    Mux([1, 0],
        map[1 := Queues([], [LargeFrame(1)], []), 0 := Queues([], [LargeFrame(0)], [])],
        map[1 := 1, 0 := 1], 0)
  }

  function OneLarge(): Mux {
    Mux([1, 0],
        map[1 := Queues([], [LargeFrame(1)], []), 0 := Queues([], [], [])],
        map[1 := 1, 0 := 0], 0)
  }

  lemma OneLargeIsReached()
    ensures AddPacket(TwoProtocols(), LargePacket(1), false) == (OneLarge(), true)
  {
    var m := TwoProtocols();
    CountTwo(m.queues);
    AddLarge(m, 1);
    assert m.queues[1 := Queues([], [LargeFrame(1)], [])] == OneLarge().queues;
    assert m.sids[1 := 1] == OneLarge().sids;
  }

  lemma TwoLargeIsReached()
    ensures AddPacket(OneLarge(), LargePacket(0), false) == (TwoLarge(), true)
  {
    var m := OneLarge();
    CountTwo(m.queues);
    AddLarge(m, 0);
    assert m.queues[0 := Queues([], [LargeFrame(0)], [])] == TwoLarge().queues;
    assert m.sids[0 := 1] == TwoLarge().sids;
  }

  lemma NothingFits()
    ensures MuxOk(TwoLarge()) && PopFrames(TwoLarge()).1 == Nothing
  {
    var m := TwoLarge();
    CountTwo(m.queues);
    LargeFrameSize(0);
    LargeFrameSize(1);
    assert SendWindow(m.protocols, m.queues) == 4096;
    forall p | p in m.protocols ensures !HeadFits(m.queues[p], 4096) {
      assert m.queues[p].normal[0] == LargeFrame(p);
    }
    StuckExactlyWhenNothingFits(m);
  }

  /** One full-window packet for protocol 1, then one for protocol 0: neither is ever sent. */
  lemma ZeroIdGetsStuck()
    ensures var (m1, ok1) := AddPacket(TwoProtocols(), LargePacket(1), false);
            var (m2, ok2) := AddPacket(m1, LargePacket(0), false);
            && ok1 && ok2 && MuxOk(m2) && m2.protocols != [] && Active(m2, 0) && Active(m2, 1)
            && PopAll(m2).1 == []
  {
    OneLargeIsReached();
    TwoLargeIsReached();
    NothingFits();
  }
}

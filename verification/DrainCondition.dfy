/** Exactly when draining leaves every queue empty. */
module DrainCondition {
  import opened Options
  import opened Rlp
  import opened Frames
  import opened Scheduler
  import opened MuxState
  import opened MuxDrain

  ghost predicate AllIdle(m: Mux) {
    forall p :: p in m.protocols ==> !Active(m, p)
  }

  // ---------- An activation order is needed ----------

  lemma {:induction false} TakenFits(taken: seq<Tagged>, lane: Lane, f: Frame)
    requires f in OfLane(taken, lane)
    ensures FrameSize(f) <= TotalSize(taken)
    decreases |taken|
  {
    if !(taken[0].lane == lane && taken[0].frame == f) {
      TakenFits(taken[1..], lane, f);
    }
  }

  /** A frame that was queued before draining is still queued, or it fitted the window. */
  lemma DrainedFits(q: Queues, window: nat, lane: Lane, f: Frame)
    requires f in q.Get(lane)
    ensures f in Drain(q, window).queues.Get(lane) || FrameSize(f) <= window
  {
    var b := Drain(q, window);
    DrainTakesPrefixes(q, 0, window);
    assert OfLane(b.taken, lane) + b.queues.Get(lane) == q.Get(lane);
    if f in OfLane(b.taken, lane) {
      TakenFits(b.taken, lane, f);
    }
  }

  /** The order of activation before a protocol was served: one that went idle comes last. */
  function OrderBeforePop(m': Mux, order: seq<nat>, pid: nat): seq<nat> {
    if Active(m', pid) then order else order + [pid]
  }

  lemma OrderLength(m: Mux, order: seq<nat>)
    requires MuxOk(m) && DistinctIds(order) && forall p :: p in order <==> p in m.protocols && Active(m, p)
    ensures |order| == ActiveCount(m.protocols, m.queues)
  {
    CountIsCardinality(m.protocols, m.queues);
    DistinctCardinality(order);
    assert Members(order) == ActiveIn(m.protocols, m.queues);
  }

  lemma ServedWasActive(q: Queues, window: nat)
    requires Drain(q, window).taken != []
    ensures q.Active()
  {
    DrainCounts(q, window);
  }

  /** One service, seen backwards: which protocol, its queues before and after, and the window. */
  lemma ServiceBack(m: Mux) returns (pid: nat, q': Queues, w: nat)
    requires MuxOk(m) && m.protocols != [] && PopFrames(m).1.Served?
    ensures pid == PopFrames(m).1.pid && pid in m.protocols && pid in m.queues && m.queues[pid].Active()
    ensures PopFrames(m).0.protocols == m.protocols && PopFrames(m).0.queues == m.queues[pid := q']
    ensures w == SendWindow(m.protocols, m.queues)
    ensures forall lane, f :: f in m.queues[pid].Get(lane) ==> f in q'.Get(lane) || FrameSize(f) <= w
  {
    PopServesOne(m);
    RotationMembers(m.protocols, NextIndex(m.protocols, m.last));
    pid, w := PopFrames(m).1.pid, SendWindow(m.protocols, m.queues);
    q' := Drain(m.queues[pid], w).queues;
    ServedWasActive(m.queues[pid], w);
    forall lane, f | f in m.queues[pid].Get(lane) ensures f in q'.Get(lane) || FrameSize(f) <= w {
      DrainedFits(m.queues[pid], w, lane, f);
    }
  }

  /** What one call of pop_frames serves fits the window, so the shares held before it, too. */
  lemma PopHadOrder(m: Mux, order: seq<nat>)
    requires MuxOk(m) && m.protocols != [] && PopFrames(m).1.Served?
    requires OrderedByActivation(PopFrames(m).0, order)
    ensures OrderedByActivation(m, OrderBeforePop(PopFrames(m).0, order, PopFrames(m).1.pid))
  {
    var pid, q', w := ServiceBack(m);
    ShareBefore(m, PopFrames(m).0, order, pid, q', w);
  }

  lemma ShareBefore(m: Mux, m': Mux, order: seq<nat>, pid: nat, q': Queues, w: nat)
    requires MuxOk(m) && pid in m.protocols && pid in m.queues && m.queues[pid].Active()
    requires m'.protocols == m.protocols && m'.queues == m.queues[pid := q'] && OrderedByActivation(m', order)
    requires w == SendWindow(m.protocols, m.queues)
    requires forall lane, f :: f in m.queues[pid].Get(lane) ==> f in q'.Get(lane) || FrameSize(f) <= w
    ensures OrderedByActivation(m, OrderBeforePop(m', order, pid))
  {
    var before := OrderBeforePop(m', order, pid);
    ActiveBefore(m, m', order, pid, q');
    OrderLength(m, before);
    forall i | 0 <= i < |before| ensures WithinShare(m, before, i) {
      if before[i] == pid {
        WindowShrinks(i + 1, |before|);
        ServedShare(m.queues[pid], q', w, Window(i + 1), m', order, pid, i);
      } else {
        assert WithinShare(m', order, i);
      }
    }
  }

  lemma ActiveBefore(m: Mux, m': Mux, order: seq<nat>, pid: nat, q': Queues)
    requires pid in m.protocols && pid in m.queues && m.queues[pid].Active()
    requires m'.protocols == m.protocols && m'.queues == m.queues[pid := q'] && OrderedByActivation(m', order)
    ensures var before := OrderBeforePop(m', order, pid);
            DistinctIds(before) && forall p :: p in before <==> p in m.protocols && Active(m, p)
  {
    var before := OrderBeforePop(m', order, pid);
    assert forall p :: p in before <==> p in order || p == pid;
    assert forall p :: p != pid ==> (Active(m, p) <==> Active(m', p));
  }

  /** The frames of the protocol that was served: what is left fits its share, the others the window. */
  lemma ServedShare(q: Queues, q': Queues, w: nat, share: nat, m': Mux, order: seq<nat>, pid: nat, i: nat)
    requires forall lane, f :: f in q.Get(lane) ==> f in q'.Get(lane) || FrameSize(f) <= w
    requires w <= share == Window(i + 1) && OrderedByActivation(m', order) && pid in m'.queues && m'.queues[pid] == q'
    requires Active(m', pid) ==> i < |order| && order[i] == pid
    ensures FramesWithin(q, share)
  {
    if Active(m', pid) {
      assert WithinShare(m', order, i);
    } else {
      IdleIsWithin(q', share);
    }
  }

  /** If draining empties every queue, there was an activation order. */
  lemma {:induction false} EmptiedHadOrder(m: Mux) returns (order: seq<nat>)
    requires MuxOk(m) && m.protocols != [] && AllIdle(PopAll(m).0)
    ensures OrderedByActivation(m, order)
    decreases Total(m.protocols, m.queues), 1
  {
    PopServesOne(m);
    if PopFrames(m).1.Nothing? {
      order := [];
      assert forall p :: p in m.protocols ==> Active(m, p) == Active(PopFrames(m).0, p);
    } else {
      order := EmptiedHadOrder(PopFrames(m).0);
      PopHadOrder(m, order);
      order := OrderBeforePop(PopFrames(m).0, order, PopFrames(m).1.pid);
    }
  }

  /** Draining empties every queue if and only if some order of the active protocols respects the shares. */
  lemma EmptiedIffOrdered(m: Mux)
    requires MuxOk(m) && m.protocols != []
    ensures AllIdle(PopAll(m).0) <==> exists order :: OrderedByActivation(m, order)
  {
    if AllIdle(PopAll(m).0) {
      var order := EmptiedHadOrder(m);
    }
    if order :| OrderedByActivation(m, order) {
      forall p | p in PopAll(m).0.protocols ensures !Active(PopAll(m).0, p) {
        PopAllKeepsProtocols(m);
        PopAllSendsEverything(m, order, p, Normal);
      }
    }
  }

  lemma {:induction false} PopAllKeepsProtocols(m: Mux)
    requires MuxOk(m) && m.protocols != []
    ensures PopAll(m).0.protocols == m.protocols
    decreases Total(m.protocols, m.queues)
  {
    PopServesOne(m);
    if PopFrames(m).1.Served? {
      PopAllKeepsProtocols(PopFrames(m).0);
    }
  }

  // ---------- The condition by counting ----------

  /** The active protocols that hold a frame larger than the window for `k` active protocols. */
  ghost function TooLarge(m: Mux, k: nat): set<nat>
    requires k > 0
  {
    set p | p in m.protocols && p in m.queues && m.queues[p].Active() && !FramesWithin(m.queues[p], Window(k))
  }

  /** For each `k` up to the number of active protocols fewer than `k` hold a frame that is too large. */
  ghost predicate Roomy(m: Mux) {
    forall k :: 1 <= k <= ActiveCount(m.protocols, m.queues) ==> |TooLarge(m, k)| < k
  }

  lemma LaterFits(m: Mux, order: seq<nat>, i: nat, k: nat)
    requires OrderedByActivation(m, order) && 0 < k <= i + 1 <= |order|
    ensures order[i] in m.queues && FramesWithin(m.queues[order[i]], Window(k))
  {
    assert WithinShare(m, order, i);
    WindowShrinks(k, i + 1);
  }

  lemma OrderedIsRoomy(m: Mux, order: seq<nat>)
    requires MuxOk(m) && OrderedByActivation(m, order)
    ensures Roomy(m)
  {
    OrderLength(m, order);
    forall k | 1 <= k <= |order| ensures |TooLarge(m, k)| < k {
      var first := order[..k - 1];
      forall p | p in TooLarge(m, k) ensures p in Members(first) {
        assert p in order;
        var i :| 0 <= i < |order| && order[i] == p;
        if i >= k - 1 {
          LaterFits(m, order, i, k);
        }
        assert first[i] == p;
      }
      DistinctCardinality(first);
      SubsetSmaller(TooLarge(m, k), Members(first));
    }
  }

  /** An order of the protocols of `a`, built from its end. */
  lemma {:induction false} BuildOrder(m: Mux, a: set<nat>) returns (order: seq<nat>)
    requires forall p :: p in a ==> p in m.protocols && p in m.queues && m.queues[p].Active()
    requires forall k :: 1 <= k <= |a| ==> |a * TooLarge(m, k)| < k
    ensures DistinctIds(order) && Members(order) == a && |order| == |a|
    ensures forall i :: 0 <= i < |order| ==> WithinShare(m, order, i)
    decreases |a|
  {
    if a == {} {
      order := [];
    } else {
      var p := LastOf(m, a);
      var rest := a - {p};
      order := BuildOrder(m, rest);
      order := AppendLast(m, a, order, p);
    }
  }

  /** A protocol that can come last, and what is left when it is taken away. */
  lemma LastOf(m: Mux, a: set<nat>) returns (p: nat)
    requires a != {} && forall p :: p in a ==> p in m.protocols && p in m.queues && m.queues[p].Active()
    requires forall k :: 1 <= k <= |a| ==> |a * TooLarge(m, k)| < k
    ensures p in a && p in m.queues && FramesWithin(m.queues[p], Window(|a|))
    ensures forall k :: 1 <= k <= |a - {p}| ==> |(a - {p}) * TooLarge(m, k)| < k
  {
    p := OneFits(a, TooLarge(m, |a|));
    forall k | 1 <= k <= |a - {p}| ensures |(a - {p}) * TooLarge(m, k)| < k {
      SubsetSmaller((a - {p}) * TooLarge(m, k), a * TooLarge(m, k));
    }
  }

  lemma OneFits(a: set<nat>, large: set<nat>) returns (p: nat)
    requires |a * large| < |a|
    ensures p in a && p !in large
  {
    assert |a - large| == |a| - |a * large|;
    p :| p in a - large;
  }

  lemma AppendLast(m: Mux, a: set<nat>, before: seq<nat>, p: nat) returns (order: seq<nat>)
    requires p in a && DistinctIds(before) && Members(before) == a - {p} && |before| == |a| - 1
    requires forall i :: 0 <= i < |before| ==> WithinShare(m, before, i)
    requires p in m.queues && FramesWithin(m.queues[p], Window(|a|))
    ensures DistinctIds(order) && Members(order) == a && |order| == |a|
    ensures forall i :: 0 <= i < |order| ==> WithinShare(m, order, i)
  {
    order := before + [p];
    assert forall x :: x in before <==> x in Members(before);
    assert forall x :: x in order <==> x in before || x == p;
    forall i | 0 <= i < |order| ensures WithinShare(m, order, i) {
      if i < |before| {
        assert WithinShare(m, before, i);
      }
    }
  }

  lemma RoomyIsOrdered(m: Mux) returns (order: seq<nat>)
    requires MuxOk(m) && Roomy(m)
    ensures OrderedByActivation(m, order)
  {
    var a := ActiveIn(m.protocols, m.queues);
    CountIsCardinality(m.protocols, m.queues);
    forall k | 1 <= k <= |a| ensures |a * TooLarge(m, k)| < k {
      assert a * TooLarge(m, k) == TooLarge(m, k);
    }
    order := BuildOrder(m, a);
    assert forall p :: p in order <==> p in Members(order);
  }

  /**
   * For any queues at all: draining leaves every queue empty if and only if for each `k` fewer than
   * `k` active protocols hold a frame larger than the window for `k` active protocols.
   */
  lemma EmptiedIffRoomy(m: Mux)
    requires MuxOk(m) && m.protocols != []
    ensures AllIdle(PopAll(m).0) <==> Roomy(m)
  {
    EmptiedIffOrdered(m);
    if Roomy(m) {
      var order := RoomyIsOrdered(m);
    }
    if order :| OrderedByActivation(m, order) {
      OrderedIsRoomy(m, order);
    }
  }

  // ---------- What keeps the queues roomy ----------

  lemma IdleIsRoomy(m: Mux)
    requires MuxOk(m) && AllIdle(m)
    ensures Roomy(m)
  {
    assert OrderedByActivation(m, []);
    OrderedIsRoomy(m, []);
  }

  lemma OrderOfIdle(m: Mux, order: seq<nat>)
    requires MuxOk(m) && AllIdle(m) && OrderedByActivation(m, order)
    ensures order == []
  {
    OrderLength(m, order);
    CountIsCardinality(m.protocols, m.queues);
    assert ActiveIn(m.protocols, m.queues) == {};
  }

  /** Queueing for a protocol other than 0, for one that is active, or when all are idle. */
  lemma AddKeepsRoomy(m: Mux, p: Packet, prioritize: bool)
    requires MuxOk(m) && Roomy(m) && (p.pid != 0 || Active(m, 0) || AllIdle(m))
    ensures MuxOk(AddPacket(m, p, prioritize).0) && Roomy(AddPacket(m, p, prioritize).0)
  {
    var m' := AddPacket(m, p, prioritize).0;
    var order := RoomyIsOrdered(m);
    if AddPacket(m, p, prioritize).1 {
      if AllIdle(m) {
        OrderOfIdle(m, order);
      }
      AddKeepsOrder(m, order, p, prioritize);
      OrderedIsRoomy(m', OrderAfterAdd(m, order, p.pid));
    } else {
      assert m'.protocols == m.protocols && m'.queues == m.queues;
      forall i | 0 <= i < |order| ensures WithinShare(m', order, i) {
        assert WithinShare(m, order, i);
      }
      OrderedIsRoomy(m', order);
    }
  }

  /** Sending. */
  lemma PopKeepsRoomy(m: Mux)
    requires MuxOk(m) && m.protocols != [] && Roomy(m)
    ensures MuxOk(PopFrames(m).0) && Roomy(PopFrames(m).0)
  {
    var m' := PopFrames(m).0;
    PopServesOne(m);
    var order := RoomyIsOrdered(m);
    if PopFrames(m).1.Served? {
      PopKeepsOrder(m, order);
      OrderedIsRoomy(m', OrderAfterPop(m', order, PopFrames(m).1.pid));
    } else {
      forall i | 0 <= i < |order| ensures WithinShare(m', order, i) {
        assert WithinShare(m, order, i);
      }
      OrderedIsRoomy(m', order);
    }
  }

  // ---------- A packet for protocol id 0 ----------

  /** The frames that a packet for the idle protocol 0 is cut into: it does not count itself. */
  function ZeroFrames(m: Mux, p: Packet): Option<seq<Frame>>
    requires 0 in m.sids
  {
    PacketFrames(p, m.sids[0], SendWindow(m.protocols, m.queues))
  }

  lemma ZeroEnqueued(m: Mux, p: Packet, prioritize: bool)
    requires MuxOk(m) && p.pid == 0 && AddPacket(m, p, prioritize).1 && !Active(m, 0)
    ensures 0 in m.sids && 0 in m.protocols && ZeroFrames(m, p).Some? && MuxOk(AddPacket(m, p, prioritize).0)
    ensures var m' := AddPacket(m, p, prioritize).0;
            && m'.protocols == m.protocols && 0 in m'.queues && m'.queues == m.queues[0 := m'.queues[0]]
            && m'.queues[0].Active()
            && forall w :: FramesWithin(m'.queues[0], w) <==> forall f :: f in ZeroFrames(m, p).value ==> FrameSize(f) <= w
  {
    AddEnqueues(m, p, prioritize);
    AddChangesOneQueue(m, p, prioritize);
    QueuedIsActive(m, p, prioritize);
    var frames := ZeroFrames(m, p).value;
    var q' := AddPacket(m, p, prioritize).0.queues[0];
    assert forall lane :: m.queues[0].Get(lane) == [];
    forall lane ensures q'.Get(lane) == if lane == LaneOf(frames, prioritize) then frames else [] {
      EnqueueAppends(m.queues[0], frames, prioritize, lane);
    }
    forall w ensures FramesWithin(q', w) <==> forall f :: f in frames ==> FrameSize(f) <= w {
      if FramesWithin(q', w) {
        assert q'.Get(LaneOf(frames, prioritize)) == frames;
      }
    }
  }

  lemma OneMoreCounted(m: Mux, m': Mux)
    requires MuxOk(m) && MuxOk(m') && 0 in m.protocols && !Active(m, 0)
    requires m'.protocols == m.protocols && 0 in m'.queues && m'.queues == m.queues[0 := m'.queues[0]] && m'.queues[0].Active()
    ensures ActiveCount(m'.protocols, m'.queues) == ActiveCount(m.protocols, m.queues) + 1
  {
    CountIsCardinality(m.protocols, m.queues);
    CountIsCardinality(m'.protocols, m'.queues);
    assert ActiveIn(m'.protocols, m'.queues) == ActiveIn(m.protocols, m.queues) + {0};
  }

  lemma OneMoreActive(m: Mux, m': Mux, k: nat)
    requires MuxOk(m) && MuxOk(m') && 0 in m.protocols && !Active(m, 0) && k > 0
    requires m'.protocols == m.protocols && 0 in m'.queues && m'.queues == m.queues[0 := m'.queues[0]] && m'.queues[0].Active()
    ensures |TooLarge(m', k)| == |TooLarge(m, k)| + if FramesWithin(m'.queues[0], Window(k)) then 0 else 1
  {
    if FramesWithin(m'.queues[0], Window(k)) {
      assert TooLarge(m', k) == TooLarge(m, k);
    } else {
      assert TooLarge(m', k) == TooLarge(m, k) + {0};
    }
  }

  /** The count for one window, before and after the packet. */
  lemma ZeroAtWindow(m: Mux, order: seq<nat>, m': Mux, frames: seq<Frame>, k: nat)
    requires MuxOk(m) && MuxOk(m') && 0 in m.protocols && !Active(m, 0) && 1 <= k <= |order| + 1
    requires m'.protocols == m.protocols && 0 in m'.queues && m'.queues == m.queues[0 := m'.queues[0]] && m'.queues[0].Active()
    requires forall w :: FramesWithin(m'.queues[0], w) <==> forall f :: f in frames ==> FrameSize(f) <= w
    requires |order| == ActiveCount(m.protocols, m.queues) && Roomy(m)
    ensures |TooLarge(m', k)| < k <==> forall f :: f in frames && FrameSize(f) > Window(k) ==> |TooLarge(m, k)| + 1 < k
  {
    OneMoreActive(m, m', k);
    if k == |order| + 1 {
      CountIsCardinality(m.protocols, m.queues);
      SubsetSmaller(TooLarge(m, k), ActiveIn(m.protocols, m.queues));
    }
  }

  /**
   * A packet for the idle protocol 0, queued when the others respect their shares: draining empties
   * every queue if and only if, for each window one of its frames exceeds, enough other protocols
   * hold no such frame.
   */
  lemma ZeroIdEmptiedIff(m: Mux, order: seq<nat>, p: Packet, prioritize: bool)
    requires MuxOk(m) && OrderedByActivation(m, order) && AddPacket(m, p, prioritize).1
    requires p.pid == 0 && !Active(m, 0)
    ensures 0 in m.sids && m.protocols != [] && ZeroFrames(m, p).Some? && MuxOk(AddPacket(m, p, prioritize).0)
    ensures AllIdle(PopAll(AddPacket(m, p, prioritize).0).0)
       <==> forall k, f :: 1 <= k <= |order| + 1 && f in ZeroFrames(m, p).value && FrameSize(f) > Window(k)
              ==> |TooLarge(m, k)| + 1 < k
  {
    ZeroEnqueued(m, p, prioritize);
    var m' := AddPacket(m, p, prioritize).0;
    EmptiedIffRoomy(m');
    OrderLength(m, order);
    OrderedIsRoomy(m, order);
    forall k | 1 <= k <= |order| + 1
      ensures |TooLarge(m', k)| < k
         <==> forall f :: f in ZeroFrames(m, p).value && FrameSize(f) > Window(k) ==> |TooLarge(m, k)| + 1 < k
    {
      ZeroAtWindow(m, order, m', ZeroFrames(m, p).value, k);
    }
    OneMoreCounted(m, m');
  }
}

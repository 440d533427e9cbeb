/**
 * The rules of the multiplexer in numbers: the window of a protocol, when a packet can be queued and
 * where it goes, whose turn it is, and what registering a protocol does.
 */
module MuxRules {
  import opened Options
  import opened Rlp
  import opened Frames
  import opened Scheduler
  import opened MuxState

  // ---------- The window ----------

  /** The window for `n` active protocols is the largest multiple of 16 of which `n` fit 8192 bytes. */
  lemma WindowShare(n: nat)
    requires n > 0
    ensures Window(n) % 16 == 0 && n * Window(n) <= 8192 < n * (Window(n) + 16)
  {
    var q, w := 8192 / n, Window(n);
    assert n * q <= 8192 < n * (q + 1) by {
      assert 8192 == n * q + 8192 % n;
      assert n * (q + 1) == n * q + n;
    }
    assert w <= q && q + 1 <= w + 16;
    ScaleUp(n, w, q);
    ScaleUp(n, q + 1, w + 16);
  }

  /** There is room to cut packets exactly for up to 128 active protocols. */
  lemma RoomToCutIff(n: nat)
    requires n > 0
    ensures Window(n) >= 64 <==> n <= 128
  {
    WindowShare(n);
    if n <= 128 && Window(n) < 64 {
      assert Window(n) + 16 <= 64;
      ScaleUp(n, Window(n) + 16, 64);
      assert false;
    }
    if n > 128 && Window(n) >= 64 {
      ScaleUp(n, 64, Window(n));
      assert false;
    }
  }

  /** The protocols with frames in their queues. */
  function ActiveProtocols(m: Mux): set<nat> {
    set p | p in m.protocols && p in m.queues && |m.queues[p].priority| + |m.queues[p].normal| + |m.queues[p].chunked| > 0
  }

  lemma ActiveProtocolsCount(m: Mux)
    requires MuxOk(m)
    ensures ActiveCount(m.protocols, m.queues) == |ActiveProtocols(m)|
  {
    CountIsCardinality(m.protocols, m.queues);
    assert ActiveIn(m.protocols, m.queues) == ActiveProtocols(m);
  }

  /** How many protocols share the window: the active ones, and the one a packet is cut for unless its id is 0. */
  function Sharing(m: Mux, pid: Option<nat>): (n: nat)
    ensures n > 0
  {
    var others := |ActiveProtocols(m)|;
    if pid.Some? && pid.value != 0 && pid.value !in ActiveProtocols(m) then others + 1
    else if others == 0 then 1 else others
  }

  /** The share of a window of 8192 bytes: the largest multiple of 16 that does not exceed it. */
  predicate IsShare(n: nat, window: nat) {
    window % 16 == 0 && n * window <= 8192 < n * (window + 16)
  }

  lemma WindowsAre(m: Mux, pid: nat)
    requires MuxOk(m)
    ensures IsShare(Sharing(m, None), SendWindow(m.protocols, m.queues))
    ensures pid in m.queues ==> IsShare(Sharing(m, Some(pid)), PacketWindow(m.protocols, m.queues, pid))
  {
    ActiveProtocolsCount(m);
    WindowShare(Sharing(m, None));
    WindowShare(Sharing(m, Some(pid)));
  }

  // ---------- Queueing a packet ----------

  /**
   * A packet is queued if and only if its protocol is registered, its fields are in range, the window
   * has 64 bytes, and, for a priority packet, it is one frame of no more than 1024 bytes.
   */
  lemma QueuedIff(m: Mux, p: Packet, prioritize: bool)
    requires MuxOk(m)
    ensures AddPacket(m, p, prioritize).1
       <==> && p.pid in m.queues && p.cmd < 256 && p.pid < 65536
            && PacketWindow(m.protocols, m.queues, p.pid) >= 64
            && (prioritize ==> FrameSize(WholeFrame(p, 0)) <= 1024 && FrameSize(WholeFrame(p, 0)) <= PacketWindow(m.protocols, m.queues, p.pid))
  {
    if p.pid in m.queues {
      var sid, window := m.sids[p.pid], PacketWindow(m.protocols, m.queues, p.pid);
      CuttingCoversPacket(p, sid, window);
      assert FrameSize(WholeFrame(p, sid)) == FrameSize(WholeFrame(p, 0));
      if PacketOk(p, sid) && window >= 64 {
        FrameCount(p, sid, window);
        CutMeansMore(FrameSize(WholeFrame(p, sid)), window);
      }
    }
  }

  lemma CutMeansMore(size: nat, window: nat)
    requires window >= 64
    ensures size > window ==> CeilDiv(size - window, window - 48) > 0
  {
    if size > window && size - window < window - 48 {
      UniqueQuotient(size - window, window - 48, 0, size - window);
    }
  }

  /** How many frames a packet is cut into decides about its queue. */
  lemma OneFrameIff(p: Packet, sid: nat, window: nat)
    requires window % 16 == 0 && PacketFrames(p, sid, window).Some?
    ensures var fs := PacketFrames(p, sid, window).value;
            FramesOf(p, sid, fs) && (|fs| == 1 <==> FrameSize(WholeFrame(p, 0)) <= window)
            && forall i :: 0 <= i < |fs| ==> FrameSize(fs[i]) <= window
  {
    CuttingCoversPacket(p, sid, window);
    FrameCount(p, sid, window);
    CutMeansMore(FrameSize(WholeFrame(p, sid)), window);
    assert FrameSize(WholeFrame(p, sid)) == FrameSize(WholeFrame(p, 0));
  }

  /** The frames of a packet go behind those of one queue: the priority, the normal or the chunked one. */
  lemma {:induction false} QueuedWhere(m: Mux, p: Packet, prioritize: bool) returns (fs: seq<Frame>)
    requires MuxOk(m) && AddPacket(m, p, prioritize).1
    ensures p.pid in m.queues && FramesOf(p, m.sids[p.pid], fs)
    ensures forall i :: 0 <= i < |fs| ==> FrameSize(fs[i]) <= PacketWindow(m.protocols, m.queues, p.pid)
    ensures var q, m' := m.queues[p.pid], AddPacket(m, p, prioritize).0;
            && m'.protocols == m.protocols && m'.last == m.last
            && m'.sids == m.sids[p.pid := (m.sids[p.pid] + 1) % 65536]
            && m'.queues == m.queues[p.pid :=
                 if prioritize then Queues(q.priority + fs, q.normal, q.chunked)
                 else if FrameSize(WholeFrame(p, 0)) <= PacketWindow(m.protocols, m.queues, p.pid) then Queues(q.priority, q.normal + fs, q.chunked)
                 else Queues(q.priority, q.normal, q.chunked + fs)]
  {
    AddEnqueues(m, p, prioritize);
    fs := PacketFrames(p, m.sids[p.pid], PacketWindow(m.protocols, m.queues, p.pid)).value;
    OneFrameIff(p, m.sids[p.pid], PacketWindow(m.protocols, m.queues, p.pid));
    AddChangesOneQueue(m, p, prioritize);
  }

  /** A packet that is refused uses up its sequence id, if its protocol is registered, and changes nothing else. */
  lemma RefusedUsesId(m: Mux, p: Packet, prioritize: bool)
    requires MuxOk(m) && !AddPacket(m, p, prioritize).1
    ensures AddPacket(m, p, prioritize).0
         == if p.pid in m.queues then m.(sids := m.sids[p.pid := (m.sids[p.pid] + 1) % 65536]) else m
  {
  }

  // ---------- Whose turn it is ----------

  lemma {:induction false} FirstIndex(protocols: seq<nat>, pid: nat, i: nat)
    requires DistinctIds(protocols) && i < |protocols| && protocols[i] == pid
    ensures pid in protocols && IndexOf(protocols, pid) == i
    decreases i
  {
    if i > 0 {
      assert protocols[1..][i - 1] == pid;
      assert DistinctIds(protocols[1..]);
      FirstIndex(protocols[1..], pid, i - 1);
    }
  }

  /** The protocol `k` places behind position `i` in the order of registration, around its end. */
  function Around(protocols: seq<nat>, i: nat, k: nat): nat
    requires i < |protocols| && k <= |protocols|
  {
    if i + k < |protocols| then protocols[i + k] else protocols[i + k - |protocols|]
  }

  lemma RotationIs(protocols: seq<nat>, i: nat, k: nat)
    requires i < |protocols| && k < |protocols|
    ensures |Rotation(protocols, i)| == |protocols| && Rotation(protocols, i)[k] == Around(protocols, i, k)
  {
  }

  lemma {:induction false} FirstServedIs(rotation: seq<nat>, queues: map<nat, Queues>, window: nat) returns (k: nat)
    requires forall p :: p in rotation ==> p in queues
    requires FirstServed(rotation, queues, window).Served?
    ensures k < |rotation| && FirstServed(rotation, queues, window) == Served(rotation[k], Drain(queues[rotation[k]], window))
    ensures HeadFits(queues[rotation[k]], window) && forall j :: 0 <= j < k ==> !HeadFits(queues[rotation[j]], window)
    decreases |rotation|
  {
    DrainsIffHeadFits(queues[rotation[0]], window);
    if HeadFits(queues[rotation[0]], window) {
      k := 0;
    } else {
      k := FirstServedIs(rotation[1..], queues, window);
      k := k + 1;
      forall j | 0 <= j < k ensures !HeadFits(queues[rotation[j]], window) {
        assert j > 0 ==> rotation[j] == rotation[1..][j - 1];
      }
    }
  }

  lemma NextIs(protocols: seq<nat>, last: nat, i: nat)
    requires DistinctIds(protocols) && i < |protocols| && protocols[i] == last
    ensures last in protocols && NextIndex(protocols, last) == if i + 1 == |protocols| then 0 else i + 1
  {
    FirstIndex(protocols, last, i);
    var end := |protocols| - 1;
    assert i < end ==> protocols[i] != protocols[end];
  }

  lemma {:induction false} PopIs(m: Mux, next: nat)
    requires MuxOk(m) && m.protocols != [] && next == NextIndex(m.protocols, m.last)
    ensures PopFrames(m).0.last == m.protocols[next]
    ensures PopFrames(m).0.protocols == m.protocols && PopFrames(m).0.sids == m.sids
  {
  }

  lemma {:induction false} PopServes(m: Mux, rotation: seq<nat>)
    requires MuxOk(m) && m.protocols != [] && rotation == Rotation(m.protocols, NextIndex(m.protocols, m.last))
    requires forall p :: p in rotation ==> p in m.queues
    ensures PopFrames(m).1 == FirstServed(rotation, m.queues, SendWindow(m.protocols, m.queues))
  {
  }

  /** The round robin moves on by one protocol with every call, whether that protocol is served or not. */
  lemma {:induction false} TurnMovesOn(m: Mux, i: nat)
    requires MuxOk(m) && i < |m.protocols| && m.protocols[i] == m.last
    ensures PopFrames(m).0.last == Around(m.protocols, i, 1)
    ensures PopFrames(m).0.protocols == m.protocols && PopFrames(m).0.sids == m.sids
  {
    NextIs(m.protocols, m.last, i);
    PopIs(m, NextIndex(m.protocols, m.last));
  }

  /** Going around from the next place is going around from this one. */
  lemma NextAround(protocols: seq<nat>, i: nat, next: nat, j: nat)
    requires i < |protocols| && next == (if i + 1 == |protocols| then 0 else i + 1) && j < |protocols|
    ensures Rotation(protocols, next)[j] == Around(protocols, i, j + 1)
  {
    RotationIs(protocols, next, j);
  }

  lemma RotationAround(protocols: seq<nat>, i: nat, next: nat)
    requires i < |protocols| && next == if i + 1 == |protocols| then 0 else i + 1
    ensures |Rotation(protocols, next)| == |protocols|
    ensures forall j :: 0 <= j < |protocols| ==> Rotation(protocols, next)[j] == Around(protocols, i, j + 1)
  {
    RotationIs(protocols, next, 0);
    forall j | 0 <= j < |protocols| ensures Rotation(protocols, next)[j] == Around(protocols, i, j + 1) {
      NextAround(protocols, i, next, j);
    }
  }

  /** The first of a rotation with a head frame that fits. */
  lemma {:induction false} FirstThatFits(m: Mux, rotation: seq<nat>) returns (k: nat)
    requires forall p :: p in rotation ==> p in m.queues
    requires FirstServed(rotation, m.queues, SendWindow(m.protocols, m.queues)).Served?
    ensures k < |rotation| && rotation[k] in m.queues
    ensures FirstServed(rotation, m.queues, SendWindow(m.protocols, m.queues))
         == Served(rotation[k], Drain(m.queues[rotation[k]], SendWindow(m.protocols, m.queues)))
    ensures forall j :: 0 <= j < k ==> PassedOver(m, rotation[j])
  {
    k := FirstServedIs(rotation, m.queues, SendWindow(m.protocols, m.queues));
    forall j | 0 <= j < k ensures PassedOver(m, rotation[j]) {
      assert rotation[j] in rotation;
    }
  }

  lemma {:induction false} ServedAround(m: Mux, i: nat, rotation: seq<nat>, r: Served) returns (k: nat)
    requires i < |m.protocols| == |rotation| && forall j :: 0 <= j < |rotation| ==> rotation[j] == Around(m.protocols, i, j + 1)
    requires (forall p :: p in rotation ==> p in m.queues) && r.Served?
    requires r == FirstServed(rotation, m.queues, SendWindow(m.protocols, m.queues))
    ensures 1 <= k <= |rotation| && r.pid == Around(m.protocols, i, k) && r.pid in m.queues
    ensures r.batch == Drain(m.queues[r.pid], SendWindow(m.protocols, m.queues))
    ensures forall j :: 1 <= j < k ==> PassedOver(m, Around(m.protocols, i, j))
  {
    k := FirstThatFits(m, rotation);
    k := k + 1;
    forall j | 1 <= j < k ensures PassedOver(m, Around(m.protocols, i, j)) {
      assert rotation[j - 1] == Around(m.protocols, i, j - 1 + 1);
    }
  }

  /** The protocol served is the first one, from the one behind the last, with a head frame that fits. */
  lemma {:induction false} ServedIsNext(m: Mux, i: nat) returns (k: nat)
    requires MuxOk(m) && i < |m.protocols| && m.protocols[i] == m.last && PopFrames(m).1.Served?
    ensures 1 <= k <= |m.protocols| && PopFrames(m).1.pid == Around(m.protocols, i, k)
    ensures Around(m.protocols, i, k) in m.queues
    ensures PopFrames(m).1.batch == Drain(m.queues[Around(m.protocols, i, k)], SendWindow(m.protocols, m.queues))
    ensures forall j :: 1 <= j < k ==> PassedOver(m, Around(m.protocols, i, j))
  {
    NextIs(m.protocols, m.last, i);
    var next := NextIndex(m.protocols, m.last);
    var rotation := Rotation(m.protocols, next);
    RotationMembers(m.protocols, next);
    PopServes(m, rotation);
    RotationAround(m.protocols, i, next);
    k := ServedAround(m, i, rotation, PopFrames(m).1);
  }

  /** No head frame of the protocol fits the window. */
  predicate PassedOver(m: Mux, pid: nat) {
    pid in m.queues && !HeadFits(m.queues[pid], SendWindow(m.protocols, m.queues))
  }

  // ---------- Registering a protocol ----------

  /** A new protocol comes last, is idle and starts with sequence id 0; the next turn is that of the first one. */
  lemma {:induction false} RegisteredLast(m: Mux, pid: nat)
    requires MuxOk(m) && pid !in m.queues
    ensures var m' := AddProtocol(m, pid);
            && MuxOk(m') && m'.protocols == m.protocols + [pid]
            && ActiveProtocols(m') == ActiveProtocols(m) && pid !in ActiveProtocols(m') && m'.sids[pid] == 0
            && forall p :: p in m.queues ==> m'.queues[p] == m.queues[p] && m'.sids[p] == m.sids[p]
  {
    var m' := AddProtocol(m, pid);
    assert forall p :: p in m'.protocols <==> p in m.protocols || p == pid;
  }

  lemma {:induction false} FirstTurnAfterRegistering(m: Mux, pid: nat)
    requires MuxOk(m) && pid !in m.queues
    ensures MuxOk(AddProtocol(m, pid)) && PopFrames(AddProtocol(m, pid)).0.last == (m.protocols + [pid])[0]
  {
    RegisteredLast(m, pid);
    TurnMovesOn(AddProtocol(m, pid), |m.protocols|);
  }
}

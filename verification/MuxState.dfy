/**
 * The sending state of a multiplexer and its operations as functions, and why draining it never
 * gets stuck: the protocols, in the order they became active, hold ever smaller frames.
 */
module MuxState {
  import opened Options
  import opened Rlp
  import opened Frames
  import opened Scheduler

  datatype Mux = Mux(protocols: seq<nat>, queues: map<nat, Queues>, sids: map<nat, nat>, last: nat)

  ghost predicate DistinctIds(s: seq<nat>) {
    forall i, j :: 0 <= i < j < |s| ==> s[i] != s[j]
  }

  ghost predicate MuxOk(m: Mux) {
    && DistinctIds(m.protocols)
    && (forall p :: p in m.protocols <==> p in m.queues)
    && (forall p :: p in m.protocols <==> p in m.sids)
    && (m.protocols != [] ==> m.last in m.protocols)
    && (forall p :: p in m.sids ==> m.sids[p] < 0x1_0000)
  }

  predicate Active(m: Mux, pid: nat) {
    pid in m.queues && m.queues[pid].Active()
  }

  function AddProtocol(m: Mux, pid: nat): Mux {
    Mux(m.protocols + [pid], m.queues[pid := Queues([], [], [])], m.sids[pid := 0], pid)
  }

  /** Queue a packet.  False stands for the exception the source raises; the id is used up even then. */
  function AddPacket(m: Mux, p: Packet, prioritize: bool): (Mux, bool) {
    if p.pid !in m.sids || p.pid !in m.queues then (m, false)
    else
      var m1 := m.(sids := m.sids[p.pid := (m.sids[p.pid] + 1) % 0x1_0000]);
      match PacketFrames(p, m.sids[p.pid], PacketWindow(m.protocols, m.queues, p.pid))
      case None => (m1, false)
      case Some(frames) =>
        if frames == [] then (m1, false)
        else
          match Enqueue(m.queues[p.pid], frames, prioritize)
          case None => (m1, false)
          case Some(q) => (m1.(queues := m.queues[p.pid := q]), true)
  }

  /** The frames of the next protocol, in round-robin order, that has any to send in its window. */
  function PopFrames(m: Mux): (Mux, Served)
    requires m.last in m.protocols && forall p :: p in m.protocols ==> p in m.queues
  {
    var i := NextIndex(m.protocols, m.last);
    var m1 := m.(last := m.protocols[i]);
    match FirstServed(Rotation(m.protocols, i), m.queues, SendWindow(m.protocols, m.queues))
    case Nothing => (m1, Nothing)
    case Served(pid, b) => (m1.(queues := m.queues[pid := b.queues]), Served(pid, b))
  }

  // ---------- Activation order ----------

  /** All frames queued for a protocol fit the window. */
  ghost predicate FramesWithin(q: Queues, window: nat) {
    forall lane, f :: f in q.Get(lane) ==> FrameSize(f) <= window
  }

  /**
   * `order` lists the active protocols, oldest activation first, and the i-th of them holds no
   * frame larger than the window for i active protocols.
   */
  ghost predicate OrderedByActivation(m: Mux, order: seq<nat>) {
    && DistinctIds(order)
    && (forall p :: p in order <==> p in m.protocols && Active(m, p))
    && (forall i :: 0 <= i < |order| ==> WithinShare(m, order, i))
  }

  ghost predicate WithinShare(m: Mux, order: seq<nat>, i: nat)
    requires i < |order|
  {
    order[i] in m.queues && FramesWithin(m.queues[order[i]], Window(i + 1))
  }

  lemma QuotientShrinks(a: nat, i: nat, j: nat)
    requires 0 < i <= j
    ensures a / j <= a / i
  {
    var x, y := a / j, a / i;
    assert a >= j * x;
    assert a < i * y + i;
    SmallerFactor(a, i, j, x, y);
  }

  lemma SmallerFactor(a: nat, i: nat, j: nat, x: nat, y: nat)
    requires 0 < i <= j && j * x <= a < i * y + i
    ensures x <= y
  {
    assert i * x <= j * x;
    assert i * (y + 1) == i * y + i;
    CancelFactor(i, x, y + 1);
  }

  lemma CancelFactor(i: nat, x: nat, z: nat)
    requires i * x < i * z
    ensures x < z
  {
    if x >= z {
      ScaleUp(i, z, x);
    }
  }

  lemma ScaleUp(i: nat, z: nat, x: nat)
    requires z <= x
    ensures i * z <= i * x
  {
  }

  lemma WindowShrinks(i: nat, j: nat)
    requires 0 < i <= j
    ensures Window(j) <= Window(i)
  {
    QuotientShrinks(MAX_WINDOW, i, j);
  }

  ghost function Members(s: seq<nat>): set<nat> {
    set p | p in s
  }

  ghost function ActiveIn(protocols: seq<nat>, queues: map<nat, Queues>): set<nat> {
    set p | p in protocols && p in queues && queues[p].Active()
  }

  lemma {:induction false} CountIsCardinality(protocols: seq<nat>, queues: map<nat, Queues>)
    requires DistinctIds(protocols)
    ensures ActiveCount(protocols, queues) == |ActiveIn(protocols, queues)|
  {
    var s := ActiveIn(protocols, queues);
    if protocols == [] {
      assert s == {};
    } else {
      var t := ActiveIn(protocols[1..], queues);
      CountIsCardinality(protocols[1..], queues);
      assert forall p :: p in protocols <==> p == protocols[0] || p in protocols[1..];
      if protocols[0] in queues && queues[protocols[0]].Active() {
        assert s == t + {protocols[0]};
      } else {
        assert s == t;
      }
    }
  }

  lemma {:induction false} DistinctCardinality(s: seq<nat>)
    requires DistinctIds(s)
    ensures |Members(s)| == |s|
  {
    if s == [] {
      assert Members(s) == {};
    } else {
      DistinctCardinality(s[1..]);
      assert forall p :: p in s <==> p == s[0] || p in s[1..];
      assert Members(s) == Members(s[1..]) + {s[0]};
    }
  }

  lemma OrderCounts(m: Mux, order: seq<nat>)
    requires MuxOk(m) && OrderedByActivation(m, order)
    ensures |order| == ActiveCount(m.protocols, m.queues)
  {
    CountIsCardinality(m.protocols, m.queues);
    DistinctCardinality(order);
    assert Members(order) == ActiveIn(m.protocols, m.queues);
  }

  /** The protocol that became active last can always send: draining never gets stuck. */
  lemma NeverStuck(m: Mux, order: seq<nat>)
    requires MuxOk(m) && OrderedByActivation(m, order) && order != []
    ensures m.protocols != [] && PopFrames(m).1.Served?
  {
    OrderCounts(m, order);
    var p := order[|order| - 1];
    assert p in order;
    assert WithinShare(m, order, |order| - 1);
    var q := m.queues[p];
    var w := SendWindow(m.protocols, m.queues);
    assert w == Window(|order|);
    if q.priority != [] {
      assert q.priority[0] in q.Get(Priority);
    } else if q.normal != [] {
      assert q.normal[0] in q.Get(Normal);
    } else {
      assert q.chunked[0] in q.Get(Chunked);
    }
    var i := NextIndex(m.protocols, m.last);
    var rotation := Rotation(m.protocols, i);
    RotationMembers(m.protocols, i);
    assert p in rotation && HeadFits(q, w);
    ServedIffSomeoneFits(rotation, m.queues, w);
  }

  lemma RotationMembers(protocols: seq<nat>, i: nat)
    requires i <= |protocols|
    ensures forall p :: p in Rotation(protocols, i) <==> p in protocols
  {
    assert protocols == protocols[..i] + protocols[i..];
  }

  /**
   * For any queues at all: nothing is sent exactly when no head frame of any protocol fits the
   * window of the moment.
   */
  lemma StuckExactlyWhenNothingFits(m: Mux)
    requires MuxOk(m) && m.protocols != []
    ensures PopFrames(m).1 == Nothing
       <==> forall p :: p in m.protocols ==> !HeadFits(m.queues[p], SendWindow(m.protocols, m.queues))
  {
    var i := NextIndex(m.protocols, m.last);
    RotationMembers(m.protocols, i);
    ServedIffSomeoneFits(Rotation(m.protocols, i), m.queues, SendWindow(m.protocols, m.queues));
  }

  /** The order of activation after a packet was queued for `pid`. */
  function OrderAfterAdd(m: Mux, order: seq<nat>, pid: nat): seq<nat> {
    if Active(m, pid) then order else order + [pid]
  }

  /** Every frame a packet is cut into fits the window it was cut for. */
  lemma FramesFitWindow(p: Packet, sid: nat, window: nat)
    requires window % PADDING == 0 && PacketFrames(p, sid, window).Some?
    ensures PacketFrames(p, sid, window).value != []
    ensures forall f :: f in PacketFrames(p, sid, window).value ==> FrameSize(f) <= window
  {
    CuttingCoversPacket(p, sid, window);
    FilledFits(PacketFrames(p, sid, window).value, window);
  }

  lemma FilledFits(fs: seq<Frame>, window: nat)
    requires FillsWindow(fs, window)
    ensures forall f :: f in fs ==> FrameSize(f) <= window
  {
    forall f | f in fs ensures FrameSize(f) <= window {
      var i :| 0 <= i < |fs| && fs[i] == f;
    }
  }

  lemma EnqueueWithin(q: Queues, frames: seq<Frame>, prioritize: bool, window: nat)
    requires frames != [] && Enqueue(q, frames, prioritize).Some?
    requires FramesWithin(q, window) && forall f :: f in frames ==> FrameSize(f) <= window
    ensures FramesWithin(Enqueue(q, frames, prioritize).value, window)
    ensures Enqueue(q, frames, prioritize).value.Active()
  {
    forall lane, f | f in Enqueue(q, frames, prioritize).value.Get(lane) ensures FrameSize(f) <= window {
      EnqueueAppends(q, frames, prioritize, lane);
    }
  }

  lemma IdleIsWithin(q: Queues, window: nat)
    requires !q.Active()
    ensures FramesWithin(q, window)
  {
    assert forall lane :: q.Get(lane) == [];
  }

  /** The window a packet is cut for is within the share of its protocol's place in the order. */
  lemma PacketWindowWithinShare(m: Mux, order: seq<nat>, pid: nat, i: nat)
    requires MuxOk(m) && OrderedByActivation(m, order) && pid in m.protocols
    requires pid != 0 || Active(m, pid) || order == []
    requires i < |OrderAfterAdd(m, order, pid)| && OrderAfterAdd(m, order, pid)[i] == pid
    ensures PacketWindow(m.protocols, m.queues, pid) <= Window(i + 1)
    ensures FramesWithin(m.queues[pid], Window(i + 1))
  {
    OrderCounts(m, order);
    var n := |order|;
    if Active(m, pid) {
      assert pid in order;
      assert PacketWindow(m.protocols, m.queues, pid) == Window(n);
      assert WithinShare(m, order, i);
      WindowShrinks(i + 1, n);
    } else {
      assert pid !in order && i == n;
      assert PacketWindow(m.protocols, m.queues, pid) == Window(n + 1);
      IdleIsWithin(m.queues[pid], Window(n + 1));
    }
  }

  lemma AddEnqueues(m: Mux, p: Packet, prioritize: bool)
    requires MuxOk(m) && AddPacket(m, p, prioritize).1
    ensures p.pid in m.protocols && p.pid in m.queues && p.pid in AddPacket(m, p, prioritize).0.queues
    ensures var frames := PacketFrames(p, m.sids[p.pid], PacketWindow(m.protocols, m.queues, p.pid));
            && frames.Some? && frames.value != []
            && Enqueue(m.queues[p.pid], frames.value, prioritize) == Some(AddPacket(m, p, prioritize).0.queues[p.pid])
  {
  }

  /** The queues of `pid` after queueing a packet stay within the share of its place in the order. */
  lemma AddKeepsShare(m: Mux, order: seq<nat>, p: Packet, prioritize: bool, i: nat)
    requires MuxOk(m) && OrderedByActivation(m, order) && AddPacket(m, p, prioritize).1
    requires p.pid != 0 || Active(m, p.pid) || order == []
    requires i < |OrderAfterAdd(m, order, p.pid)| && OrderAfterAdd(m, order, p.pid)[i] == p.pid
    ensures p.pid in AddPacket(m, p, prioritize).0.queues
    ensures FramesWithin(AddPacket(m, p, prioritize).0.queues[p.pid], Window(i + 1))
    ensures Active(AddPacket(m, p, prioritize).0, p.pid)
  {
    AddEnqueues(m, p, prioritize);
    var window := PacketWindow(m.protocols, m.queues, p.pid);
    FramesFitWindow(p, m.sids[p.pid], window);
    PacketWindowWithinShare(m, order, p.pid, i);
    EnqueueWithin(m.queues[p.pid], PacketFrames(p, m.sids[p.pid], window).value, prioritize, Window(i + 1));
  }

  lemma AddChangesOneQueue(m: Mux, p: Packet, prioritize: bool)
    requires MuxOk(m) && AddPacket(m, p, prioritize).1
    ensures var m' := AddPacket(m, p, prioritize).0;
            && p.pid in m.queues && p.pid in m'.queues
            && m' == m.(queues := m.queues[p.pid := m'.queues[p.pid]], sids := m'.sids)
            && m'.sids == m.sids[p.pid := (m.sids[p.pid] + 1) % 0x1_0000]
  {
  }

  /** Changing the queues of one protocol to active ones within its share. */
  lemma ChangeKeepsOrder(m: Mux, order: seq<nat>, pid: nat, q: Queues, m': Mux)
    requires OrderedByActivation(m, order) && pid in m.protocols && q.Active()
    requires m'.protocols == m.protocols && m'.queues == m.queues[pid := q]
    requires forall i :: 0 <= i < |OrderAfterAdd(m, order, pid)| && OrderAfterAdd(m, order, pid)[i] == pid
               ==> FramesWithin(q, Window(i + 1))
    ensures OrderedByActivation(m', OrderAfterAdd(m, order, pid))
  {
    var order' := OrderAfterAdd(m, order, pid);
    assert forall p :: p in order' <==> p in order || p == pid;
    forall i | 0 <= i < |order'| ensures WithinShare(m', order', i) {
      if order'[i] != pid {
        assert WithinShare(m, order, i);
      }
    }
  }

  /** Queueing a packet keeps the shares, for every protocol id but 0. */
  lemma AddKeepsOrder(m: Mux, order: seq<nat>, p: Packet, prioritize: bool)
    requires MuxOk(m) && OrderedByActivation(m, order) && AddPacket(m, p, prioritize).1
    requires p.pid != 0 || Active(m, p.pid) || order == []
    ensures MuxOk(AddPacket(m, p, prioritize).0)
    ensures OrderedByActivation(AddPacket(m, p, prioritize).0, OrderAfterAdd(m, order, p.pid))
  {
    var m' := AddPacket(m, p, prioritize).0;
    var order' := OrderAfterAdd(m, order, p.pid);
    AddChangesOneQueue(m, p, prioritize);
    assert p.pid in order';
    forall i | 0 <= i < |order'| && order'[i] == p.pid
      ensures FramesWithin(m'.queues[p.pid], Window(i + 1)) && Active(m', p.pid)
    {
      AddKeepsShare(m, order, p, prioritize, i);
    }
    ChangeKeepsOrder(m, order, p.pid, m'.queues[p.pid], m');
  }

  /** The order of activation after a protocol was served and possibly went idle. */
  function OrderAfterPop(m': Mux, order: seq<nat>, pid: nat): seq<nat>
  {
    if pid in order && !Active(m', pid) then Without(order, IndexOf(order, pid)) else order
  }

  function Without<T>(s: seq<T>, i: nat): seq<T>
    requires i < |s|
  {
    s[..i] + s[i + 1..]
  }

  lemma WithoutMembers(s: seq<nat>, i: nat)
    requires i < |s| && DistinctIds(s)
    ensures DistinctIds(Without(s, i))
    ensures forall p :: p in Without(s, i) <==> p in s && p != s[i]
  {
    var t := Without(s, i);
    forall p | p in s && p != s[i] ensures p in t {
      var j :| 0 <= j < |s| && s[j] == p;
      assert if j < i then t[j] == p else t[j - 1] == p;
    }
  }

  lemma DrainedQueuesShrink(q: Queues, window: nat)
    ensures forall lane, f :: f in Drain(q, window).queues.Get(lane) ==> f in q.Get(lane)
    ensures Drain(q, window).queues.Active() ==> q.Active()
  {
    var b := Drain(q, window);
    DrainTakesPrefixes(q, 0, window);
    forall lane, f | f in b.queues.Get(lane) ensures f in q.Get(lane) {
      assert f in OfLane(b.taken, lane) + b.queues.Get(lane);
    }
    if b.queues.Active() {
      assert forall lane :: |OfLane(b.taken, lane) + b.queues.Get(lane)| == |q.Get(lane)|;
      assert |b.queues.Get(Priority)| <= |q.Get(Priority)|;
      assert |b.queues.Get(Normal)| <= |q.Get(Normal)|;
      assert |b.queues.Get(Chunked)| <= |q.Get(Chunked)|;
    }
  }

  lemma ServedIsActive(m: Mux, order: seq<nat>)
    requires MuxOk(m) && m.protocols != [] && OrderedByActivation(m, order) && PopFrames(m).1.Served?
    ensures var pid := PopFrames(m).1.pid; pid in order && pid in m.protocols
    ensures PopFrames(m).0.queues == m.queues[PopFrames(m).1.pid := PopFrames(m).1.batch.queues]
    ensures PopFrames(m).1.batch == Drain(m.queues[PopFrames(m).1.pid], SendWindow(m.protocols, m.queues))
  {
    var pid := PopFrames(m).1.pid;
    RotationMembers(m.protocols, NextIndex(m.protocols, m.last));
    DrainsIffHeadFits(m.queues[pid], SendWindow(m.protocols, m.queues));
  }

  lemma SubqueuesWithin(q: Queues, q': Queues, window: nat, window': nat)
    requires FramesWithin(q, window) && forall lane, f :: f in q'.Get(lane) ==> f in q.Get(lane)
    requires window <= window'
    ensures FramesWithin(q', window')
  {
  }

  /** Taking frames from the queues of one protocol: those behind it move up when it goes idle. */
  lemma ShrinkKeepsOrder(m: Mux, order: seq<nat>, pid: nat, q: Queues, m': Mux)
    requires OrderedByActivation(m, order) && pid in m.protocols && pid in order
    requires m'.protocols == m.protocols && m'.queues == m.queues[pid := q]
    requires pid in m.queues && forall lane, f :: f in q.Get(lane) ==> f in m.queues[pid].Get(lane)
    ensures OrderedByActivation(m', OrderAfterPop(m', order, pid))
  {
    var order' := OrderAfterPop(m', order, pid);
    if !Active(m', pid) {
      WithoutMembers(order, IndexOf(order, pid));
    }
    forall i | 0 <= i < |order'| ensures WithinShare(m', order', i) {
      var j := if order' == order || i < IndexOf(order, pid) then i else i + 1;
      assert WithinShare(m, order, j);
      ShareMovesUp(m, order, j, m', order', i);
    }
  }

  lemma ShareMovesUp(m: Mux, order: seq<nat>, j: nat, m': Mux, order': seq<nat>, i: nat)
    requires i <= j < |order| && i < |order'| && order'[i] == order[j] && WithinShare(m, order, j)
    requires order[j] in m.queues && order[j] in m'.queues
    requires forall lane, f :: f in m'.queues[order[j]].Get(lane) ==> f in m.queues[order[j]].Get(lane)
    ensures WithinShare(m', order', i)
  {
    WindowShrinks(i + 1, j + 1);
    SubqueuesWithin(m.queues[order[j]], m'.queues[order[j]], Window(j + 1), Window(i + 1));
  }

  /** Serving a protocol keeps the shares of those that stay active: they can only move up. */
  lemma PopKeepsOrder(m: Mux, order: seq<nat>)
    requires MuxOk(m) && m.protocols != [] && OrderedByActivation(m, order) && PopFrames(m).1.Served?
    ensures MuxOk(PopFrames(m).0)
    ensures OrderedByActivation(PopFrames(m).0, OrderAfterPop(PopFrames(m).0, order, PopFrames(m).1.pid))
  {
    var (m', served) := PopFrames(m);
    ServedIsActive(m, order);
    DrainedQueuesShrink(m.queues[served.pid], SendWindow(m.protocols, m.queues));
    ShrinkKeepsOrder(m, order, served.pid, served.batch.queues, m');
  }
}

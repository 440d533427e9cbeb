/**
 * Two multiplexers connected by a reliable byte stream: packets are queued at one end, frames are
 * popped, written as bytes and decoded at the other end, in any interleaving.  Every queue of
 * every protocol delivers its packets exactly once and in order.
 */
module Transfer {
  import opened Options
  import opened Rlp
  import opened Frames
  import opened FrameCodec
  import opened Scheduler
  import opened MuxState
  import opened MuxDrain
  import opened Reassembly

  /** A packet with the protocol and the queue it went through. */
  datatype Entry = Entry(pid: nat, lane: Lane, packet: Packet)

  function HasPayload(ps: seq<Packet>): seq<Packet> {
    if ps == [] then []
    else if ps[0].payload != [] then [ps[0]] + HasPayload(ps[1..]) else HasPayload(ps[1..])
  }

  /** The packets with payload of one queue of one protocol, in order. */
  function OfQueue(entries: seq<Entry>, pid: nat, lane: Lane): seq<Packet> {
    if entries == [] then []
    else if entries[0].pid == pid && entries[0].lane == lane && entries[0].packet.payload != []
    then [entries[0].packet] + OfQueue(entries[1..], pid, lane)
    else OfQueue(entries[1..], pid, lane)
  }

  lemma {:induction false} HasPayloadConcat(a: seq<Packet>, b: seq<Packet>)
    ensures HasPayload(a + b) == HasPayload(a) + HasPayload(b)
    decreases |a|
  {
    if a == [] {
      assert a + b == b;
    } else {
      assert (a + b)[0] == a[0] && (a + b)[1..] == a[1..] + b;
      HasPayloadConcat(a[1..], b);
    }
  }

  lemma {:induction false} OfQueueConcat(a: seq<Entry>, b: seq<Entry>, pid: nat, lane: Lane)
    ensures OfQueue(a + b, pid, lane) == OfQueue(a, pid, lane) + OfQueue(b, pid, lane)
    decreases |a|
  {
    if a == [] {
      assert a + b == b;
    } else {
      assert (a + b)[0] == a[0] && (a + b)[1..] == a[1..] + b;
      OfQueueConcat(a[1..], b, pid, lane);
    }
  }

  // ---------- Receiving what one service sent ----------

  datatype Arrival = Lost | Arrived(entries: seq<Entry>, bufs: Buffers)

  function EntriesFor(pid: nat, lane: Lane, packet: Option<Packet>): seq<Entry> {
    if packet.Some? && packet.value.payload != [] then [Entry(pid, lane, packet.value)] else []
  }

  /** The frames of one service, received one by one. */
  function Arrive(bufs: Buffers, pid: nat, taken: seq<Tagged>): Arrival
    decreases |taken|
  {
    if taken == [] then Arrived([], bufs)
    else
      match Reassemble(bufs, ParsedFrame(taken[0].frame))
      case Fault => Lost
      case Done(bufs', packet) =>
        match Arrive(bufs', pid, taken[1..])
        case Lost => Lost
        case Arrived(entries, bufs'') => Arrived(EntriesFor(pid, taken[0].lane, packet) + entries, bufs'')
  }

  function PacketsOf(entries: seq<Entry>): seq<Packet> {
    seq(|entries|, i requires 0 <= i < |entries| => entries[i].packet)
  }

  /** Received frame by frame or decoded from the bytes on the wire: the same packets, nothing left over. */
  lemma {:induction false} ArrivalIsDecoding(bufs: Buffers, pid: nat, taken: seq<Tagged>)
    requires Arrive(bufs, pid, taken).Arrived?
    requires forall t :: t in taken ==> Encodes(t.frame)
    ensures (forall f :: f in FramesIn(taken) ==> Encodes(f))
    ensures Decode(bufs, WireBytes(FramesIn(taken)))
         == Decoded(PacketsOf(Arrive(bufs, pid, taken).entries), Arrive(bufs, pid, taken).bufs, [], false)
  {
    ArrivalIsReceiving(bufs, pid, taken);
    DecodingIsReceiving(bufs, FramesIn(taken));
  }

  lemma FirstPackets(pid: nat, lane: Lane, packet: Option<Packet>, rest: seq<Entry>)
    ensures PacketsOf(EntriesFor(pid, lane, packet) + rest) == Emitted(packet) + PacketsOf(rest)
  {
  }

  lemma {:induction false} ArrivalIsReceiving(bufs: Buffers, pid: nat, taken: seq<Tagged>)
    requires Arrive(bufs, pid, taken).Arrived?
    ensures ReceiveAll(bufs, FramesIn(taken))
         == Received(PacketsOf(Arrive(bufs, pid, taken).entries), Arrive(bufs, pid, taken).bufs)
    decreases |taken|
  {
    if taken != [] {
      var fs := FramesIn(taken);
      assert fs[0] == taken[0].frame && fs[1..] == FramesIn(taken[1..]);
      var o := Reassemble(bufs, ParsedFrame(taken[0].frame));
      ArrivalIsReceiving(o.bufs, pid, taken[1..]);
      FirstPackets(pid, taken[0].lane, o.packet, Arrive(o.bufs, pid, taken[1..]).entries);
    }
  }

  // ---------- The queues of one protocol and the slot of its receiver ----------

  /** Sequence ids in use by packets that are cut and not yet delivered. */
  ghost predicate SidInChunks(q: Queues, open: Option<Open>, sid: nat) {
    (open.Some? && open.value.sid == sid) || exists f :: f in q.chunked && f.sid == sid
  }

  ghost predicate WholeOk(f: Frame, q: Queues, open: Option<Open>) {
    !f.continuation && f.total == None && !SidInChunks(q, open, f.sid)
  }

  ghost predicate ProtocolOk(pid: nat, q: Queues, open: Option<Open>) {
    && (forall lane, f :: f in q.Get(lane) ==> f.pid == pid && Encodes(f))
    && (forall lane, f :: lane != Chunked && f in q.Get(lane) ==> WholeOk(f, q, open))
    && ChunkRun(open, q.chunked).Some?
  }

  function WholePackets(fs: seq<Frame>): seq<Packet> {
    seq(|fs|, i requires 0 <= i < |fs| => Packet(fs[i].pid, fs[i].cmd, fs[i].payload))
  }

  /** The packets with payload that the frames of one queue will still deliver. */
  function Pending(q: Queues, open: Option<Open>, lane: Lane): seq<Packet> {
    if lane == Chunked then
      match ChunkRun(open, q.chunked)
      case None => []
      case Some(ps) => HasPayload(ps)
    else HasPayload(WholePackets(q.Get(lane)))
  }

  function OpenAfter(open: Option<Open>, t: Tagged): Option<Open> {
    if t.lane == Chunked && ChunkNext(open, t.frame).Next? then ChunkNext(open, t.frame).open else open
  }

  function PacketOf(open: Option<Open>, t: Tagged): Option<Packet> {
    if t.lane != Chunked then Some(Packet(t.frame.pid, t.frame.cmd, t.frame.payload))
    else if ChunkNext(open, t.frame).Next? then ChunkNext(open, t.frame).packet
    else None
  }

  /** The head frame of one queue arrives: it moves the slot and delivers what it completes. */
  lemma HeadArrives(pid: nat, q: Queues, open: Option<Open>, bufs: Buffers, t: Tagged)
    requires ProtocolOk(pid, q, open) && pid in bufs && bufs[pid] == Slots(open)
    requires q.Get(t.lane) != [] && q.Get(t.lane)[0] == t.frame
    ensures Reassemble(bufs, ParsedFrame(t.frame)) == Done(bufs[pid := Slots(OpenAfter(open, t))], PacketOf(open, t))
  {
    assert t.frame in q.Get(t.lane);
    if t.lane == Chunked {
      ChunkFrameReceived(bufs, open, t.frame);
    } else {
      assert WholeOk(t.frame, q, open);
      WholeFrameReceived(bufs, open, t.frame);
      assert bufs[pid := Slots(open)] == bufs;
    }
  }

  /** The queues without the frame `t` at the head of its queue. */
  function Behind(q: Queues, t: Tagged): Queues
    requires q.Get(t.lane) != []
  {
    q.Set(t.lane, q.Get(t.lane)[1..])
  }

  lemma BehindMembers(q: Queues, t: Tagged)
    requires q.Get(t.lane) != []
    ensures forall lane, f :: f in Behind(q, t).Get(lane) ==> f in q.Get(lane)
  {
  }

  lemma SidsOnlyFreed(q: Queues, open: Option<Open>, t: Tagged, sid: nat)
    requires q.Get(t.lane) != [] && q.Get(t.lane)[0] == t.frame
    requires t.lane == Chunked ==> ChunkNext(open, t.frame).Next?
    ensures SidInChunks(Behind(q, t), OpenAfter(open, t), sid) ==> SidInChunks(q, open, sid)
  {
    BehindMembers(q, t);
    if exists f :: f in Behind(q, t).chunked && f.sid == sid {
      var f :| f in Behind(q, t).chunked && f.sid == sid;
      assert f in Behind(q, t).Get(Chunked);
      assert f in q.Get(Chunked);
    }
    if t.lane == Chunked {
      assert t.frame in q.chunked;
    }
  }

  lemma WholeStaysOk(q: Queues, open: Option<Open>, t: Tagged, f: Frame)
    requires q.Get(t.lane) != [] && q.Get(t.lane)[0] == t.frame
    requires t.lane == Chunked ==> ChunkNext(open, t.frame).Next?
    requires WholeOk(f, q, open)
    ensures WholeOk(f, Behind(q, t), OpenAfter(open, t))
  {
    SidsOnlyFreed(q, open, t, f.sid);
  }

  lemma HeadLeavesOk(pid: nat, q: Queues, open: Option<Open>, t: Tagged)
    requires ProtocolOk(pid, q, open)
    requires q.Get(t.lane) != [] && q.Get(t.lane)[0] == t.frame
    ensures ProtocolOk(pid, Behind(q, t), OpenAfter(open, t))
  {
    var q', open' := Behind(q, t), OpenAfter(open, t);
    BehindMembers(q, t);
    forall lane, f | lane != Chunked && f in q'.Get(lane) ensures WholeOk(f, q', open') {
      assert f in q.Get(lane);
      WholeStaysOk(q, open, t, f);
    }
    ChunksStayClosed(q, open, t);
  }

  lemma ChunksStayClosed(q: Queues, open: Option<Open>, t: Tagged)
    requires q.Get(t.lane) != [] && q.Get(t.lane)[0] == t.frame && ChunkRun(open, q.chunked).Some?
    ensures ChunkRun(OpenAfter(open, t), Behind(q, t).chunked).Some?
  {
    if t.lane != Chunked {
      assert Behind(q, t).Get(Chunked) == q.Get(Chunked);
    } else {
      assert Behind(q, t).Get(Chunked) == q.chunked[1..];
    }
  }

  lemma WholeLeaves(fs: seq<Frame>)
    requires fs != []
    ensures HasPayload(WholePackets(fs))
         == Emitted(Some(Packet(fs[0].pid, fs[0].cmd, fs[0].payload))) + HasPayload(WholePackets(fs[1..]))
  {
    assert WholePackets(fs)[1..] == WholePackets(fs[1..]);
  }

  lemma ChunkLeaves(open: Option<Open>, fs: seq<Frame>)
    requires fs != [] && ChunkRun(open, fs).Some?
    ensures var step := ChunkNext(open, fs[0]);
            step.Next? && ChunkRun(step.open, fs[1..]).Some?
            && HasPayload(ChunkRun(open, fs).value) == Emitted(step.packet) + HasPayload(ChunkRun(step.open, fs[1..]).value)
  {
    var step := ChunkNext(open, fs[0]);
    if step.packet.Some? {
      assert ([step.packet.value] + ChunkRun(step.open, fs[1..]).value)[1..] == ChunkRun(step.open, fs[1..]).value;
    }
  }

  lemma QueueOfEntry(pid: nat, lane: Lane, packet: Option<Packet>, lane': Lane)
    ensures OfQueue(EntriesFor(pid, lane, packet), pid, lane') == if lane' == lane then Emitted(packet) else []
  {
    var entries := EntriesFor(pid, lane, packet);
    if entries != [] {
      assert entries[1..] == [];
    }
  }

  lemma HeadLeavesPending(pid: nat, q: Queues, open: Option<Open>, t: Tagged, lane: Lane)
    requires ProtocolOk(pid, q, open)
    requires q.Get(t.lane) != [] && q.Get(t.lane)[0] == t.frame
    ensures Pending(q, open, lane)
         == OfQueue(EntriesFor(pid, t.lane, PacketOf(open, t)), pid, lane) + Pending(Behind(q, t), OpenAfter(open, t), lane)
  {
    QueueOfEntry(pid, t.lane, PacketOf(open, t), lane);
    assert Behind(q, t).Get(lane) == if lane == t.lane then q.Get(lane)[1..] else q.Get(lane);
    if lane != t.lane {
      if lane == Chunked {
        assert Behind(q, t).chunked == q.chunked;
      }
      assert Pending(q, open, lane) == Pending(Behind(q, t), OpenAfter(open, t), lane);
    } else if lane == Chunked {
      ChunkLeaves(open, q.chunked);
      assert Behind(q, t).chunked == q.chunked[1..];
    } else {
      WholeLeaves(q.Get(lane));
    }
  }

  function OpenAfterAll(open: Option<Open>, taken: seq<Tagged>): Option<Open>
    decreases |taken|
  {
    if taken == [] then open else OpenAfterAll(OpenAfter(open, taken[0]), taken[1..])
  }

  /** `q'` is what is left of `q` after `taken` was taken off the fronts of its queues. */
  ghost predicate TakenOff(q: Queues, taken: seq<Tagged>, q': Queues) {
    forall lane :: OfLane(taken, lane) + q'.Get(lane) == q.Get(lane)
  }

  lemma TakenOffTail(q: Queues, taken: seq<Tagged>, q': Queues)
    requires TakenOff(q, taken, q') && taken != []
    ensures var t := taken[0];
            q.Get(t.lane) != [] && q.Get(t.lane)[0] == t.frame
            && TakenOff(Behind(q, t), taken[1..], q')
  {
    var t := taken[0];
    assert OfLane(taken, t.lane) + q'.Get(t.lane) == q.Get(t.lane);
    assert OfLane(taken, t.lane)[0] == t.frame;
    var q1 := Behind(q, t);
    forall lane ensures OfLane(taken[1..], lane) + q'.Get(lane) == q1.Get(lane) {
      assert OfLane(taken, lane) + q'.Get(lane) == q.Get(lane);
      if lane == t.lane {
        assert OfLane(taken, lane) == [t.frame] + OfLane(taken[1..], lane);
        assert (([t.frame] + OfLane(taken[1..], lane)) + q'.Get(lane))[1..] == OfLane(taken[1..], lane) + q'.Get(lane);
      } else {
        assert OfLane(taken, lane) == [] + OfLane(taken[1..], lane);
      }
    }
  }

  /** One service arrives completely: no fault, and what it delivers is what it takes off the queues. */
  lemma {:induction false} ServiceArrives(pid: nat, q: Queues, open: Option<Open>, bufs: Buffers, taken: seq<Tagged>, q': Queues)
    requires ProtocolOk(pid, q, open) && pid in bufs && bufs[pid] == Slots(open) && TakenOff(q, taken, q')
    ensures ProtocolOk(pid, q', OpenAfterAll(open, taken))
    ensures Arrive(bufs, pid, taken).Arrived?
    ensures Arrive(bufs, pid, taken).bufs == bufs[pid := Slots(OpenAfterAll(open, taken))]
    ensures forall lane :: Pending(q, open, lane)
              == OfQueue(Arrive(bufs, pid, taken).entries, pid, lane) + Pending(q', OpenAfterAll(open, taken), lane)
    decreases |taken|
  {
    if taken == [] {
      QueuesEqual(q, q');
      assert bufs[pid := Slots(open)] == bufs;
    } else {
      var t := taken[0];
      TakenOffTail(q, taken, q');
      var q1, open1 := Behind(q, t), OpenAfter(open, t);
      HeadArrives(pid, q, open, bufs, t);
      HeadLeavesOk(pid, q, open, t);
      var bufs1 := bufs[pid := Slots(open1)];
      ServiceArrives(pid, q1, open1, bufs1, taken[1..], q');
      ArriveStep(bufs, bufs1, pid, taken, PacketOf(open, t));
      var rest := Arrive(bufs1, pid, taken[1..]).entries;
      forall lane ensures Pending(q, open, lane)
          == OfQueue(EntriesFor(pid, t.lane, PacketOf(open, t)) + rest, pid, lane) + Pending(q', OpenAfterAll(open, taken), lane) {
        PendingChain(pid, q, open, t, lane, rest, Pending(q', OpenAfterAll(open, taken), lane));
      }
    }
  }

  lemma {:induction false} TakenEncodes(q: Queues, taken: seq<Tagged>, q': Queues)
    requires TakenOff(q, taken, q') && forall lane, f :: f in q.Get(lane) ==> Encodes(f)
    ensures forall t :: t in taken ==> Encodes(t.frame)
    decreases |taken|
  {
    if taken != [] {
      TakenOffTail(q, taken, q');
      assert taken[0].frame in q.Get(taken[0].lane);
      BehindMembers(q, taken[0]);
      TakenEncodes(Behind(q, taken[0]), taken[1..], q');
    }
  }

  lemma {:induction false} EntriesOfService(bufs: Buffers, pid: nat, taken: seq<Tagged>)
    requires Arrive(bufs, pid, taken).Arrived?
    ensures forall e :: e in Arrive(bufs, pid, taken).entries ==> e.pid == pid
    decreases |taken|
  {
    if taken != [] {
      EntriesOfService(Reassemble(bufs, ParsedFrame(taken[0].frame)).bufs, pid, taken[1..]);
    }
  }

  lemma ArriveStep(bufs: Buffers, bufs1: Buffers, pid: nat, taken: seq<Tagged>, packet: Option<Packet>)
    requires taken != [] && Reassemble(bufs, ParsedFrame(taken[0].frame)) == Done(bufs1, packet)
    requires Arrive(bufs1, pid, taken[1..]).Arrived?
    ensures Arrive(bufs, pid, taken)
         == Arrived(EntriesFor(pid, taken[0].lane, packet) + Arrive(bufs1, pid, taken[1..]).entries,
                    Arrive(bufs1, pid, taken[1..]).bufs)
  {
  }

  lemma PendingChain(pid: nat, q: Queues, open: Option<Open>, t: Tagged, lane: Lane, rest: seq<Entry>, left: seq<Packet>)
    requires ProtocolOk(pid, q, open)
    requires q.Get(t.lane) != [] && q.Get(t.lane)[0] == t.frame
    requires Pending(Behind(q, t), OpenAfter(open, t), lane) == OfQueue(rest, pid, lane) + left
    ensures Pending(q, open, lane) == OfQueue(EntriesFor(pid, t.lane, PacketOf(open, t)) + rest, pid, lane) + left
  {
    var first := EntriesFor(pid, t.lane, PacketOf(open, t));
    HeadLeavesPending(pid, q, open, t, lane);
    OfQueueConcat(first, rest, pid, lane);
    Regroup(OfQueue(first, pid, lane), OfQueue(rest, pid, lane), left);
  }

  lemma Regroup<T>(a: seq<T>, b: seq<T>, c: seq<T>)
    ensures a + (b + c) == (a + b) + c
  {
  }

  lemma QueuesEqual(q: Queues, q': Queues)
    requires TakenOff(q, [], q')
    ensures q == q'
  {
    assert OfLane([], Priority) + q'.Get(Priority) == q.Get(Priority);
    assert OfLane([], Normal) + q'.Get(Normal) == q.Get(Normal);
    assert OfLane([], Chunked) + q'.Get(Chunked) == q.Get(Chunked);
  }
}

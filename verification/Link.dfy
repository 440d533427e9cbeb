/**
 * Runs of two connected multiplexers.  In any interleaving of queueing and sending, each queue
 * delivers a prefix of the packets put into it, without a fault; once the queues are drained
 * everything has been delivered.
 */
module Links {
  import opened Options
  import opened Rlp
  import opened Frames
  import opened FrameCodec
  import opened Scheduler
  import opened MuxState
  import opened MuxDrain
  import opened DrainCondition
  import opened Reassembly
  import opened Transfer

  /**
   * The sender, the receiver's reassembly buffers, and a record of what was queued and what was
   * delivered.  `opens` only serves the statements.
   */
  datatype Link = Link(mux: Mux, bufs: Buffers, added: seq<Entry>, delivered: seq<Entry>, opens: map<nat, Option<Open>>)

  ghost predicate Init(l: Link) {
    && MuxOk(l.mux) && l.mux.protocols != []
    && (forall p :: p in l.mux.protocols ==> l.mux.queues[p] == Queues([], [], []))
    && l.bufs == (map p | p in l.mux.queues :: map[])
    && l.opens == (map p | p in l.mux.queues :: None)
    && l.added == [] && l.delivered == []
  }

  // ---------- Queueing ----------

  function FramesFor(m: Mux, p: Packet): Option<seq<Frame>>
    requires p.pid in m.queues && p.pid in m.sids
  {
    PacketFrames(p, m.sids[p.pid], PacketWindow(m.protocols, m.queues, p.pid))
  }

  /**
   * The sequence id the packet gets is not in use by outstanding frames it could be confused with:
   * a whole packet against packets that are cut, and a cut packet against whole ones.
   */
  ghost predicate SidFree(q: Queues, open: Option<Open>, sid: nat, lane: Lane) {
    if lane == Chunked then forall other, f :: other != Chunked && f in q.Get(other) ==> f.sid != sid
    else !SidInChunks(q, open, sid)
  }

  /** What a caller has to see to: 32 bits hold the size, and the sequence id is free. */
  ghost predicate Admissible(l: Link, p: Packet, prioritize: bool) {
    && |p.payload| + 2 < 0x1_0000_0000
    && (p.pid in l.mux.protocols && p.pid in l.mux.queues && p.pid in l.mux.sids && p.pid in l.opens && FramesFor(l.mux, p).Some? ==>
          SidFree(l.mux.queues[p.pid], l.opens[p.pid], l.mux.sids[p.pid], LaneOf(FramesFor(l.mux, p).value, prioritize)))
  }

  /** A packet is queued, or refused, whatever its sequence id. */
  ghost predicate Queued(l: Link, p: Packet, prioritize: bool, l': Link) {
    var (mux', ok) := AddPacket(l.mux, p, prioritize);
    if ok && p.pid in l.mux.queues && p.pid in l.mux.sids && FramesFor(l.mux, p).Some? then
      l' == l.(mux := mux',
               added := l.added + [Entry(p.pid, LaneOf(FramesFor(l.mux, p).value, prioritize), p)])
    else l' == l.(mux := mux')
  }

  ghost predicate Queue(l: Link, p: Packet, prioritize: bool, l': Link) {
    Admissible(l, p, prioritize) && Queued(l, p, prioritize, l')
  }

  // ---------- Sending ----------

  /** The link after the frames of one service of `pid` have arrived. */
  function AfterService(l: Link, mux': Mux, pid: nat, taken: seq<Tagged>): Link
    requires Arrive(l.bufs, pid, taken).Arrived? && pid in l.opens
  {
    var a := Arrive(l.bufs, pid, taken);
    Link(mux', a.bufs, l.added, l.delivered + a.entries, l.opens[pid := OpenAfterAll(l.opens[pid], taken)])
  }

  /** One call of pop_frames whose bytes the other end decodes; None stands for a decoding fault. */
  ghost function Send(l: Link): (r: Option<Link>)
    requires MuxOk(l.mux) && l.mux.protocols != []
  {
    match PopFrames(l.mux)
    case (mux', Nothing) => Some(l.(mux := mux'))
    case (mux', Served(pid, b)) =>
      if pid in l.opens && Arrive(l.bufs, pid, b.taken).Arrived? then Some(AfterService(l, mux', pid, b.taken)) else None
  }

  // ---------- What every step keeps ----------

  ghost predicate EndsOk(l: Link, pid: nat)
    requires pid in l.mux.queues
  {
    pid in l.bufs && pid in l.opens && l.bufs[pid] == Slots(l.opens[pid])
    && ProtocolOk(pid, l.mux.queues[pid], l.opens[pid])
  }

  /** What was queued is what was delivered, followed by what is still to come. */
  ghost predicate Conserved(l: Link, pid: nat, lane: Lane)
    requires pid in l.mux.queues && pid in l.opens
  {
    OfQueue(l.added, pid, lane) == OfQueue(l.delivered, pid, lane) + Pending(l.mux.queues[pid], l.opens[pid], lane)
  }

  ghost predicate Invariant(l: Link) {
    && MuxOk(l.mux) && l.mux.protocols != []
    && (forall pid :: pid in l.mux.protocols ==> EndsOk(l, pid))
    && (forall pid, lane :: pid in l.mux.protocols && pid in l.opens ==> Conserved(l, pid, lane))
  }

  lemma InitInvariant(l: Link)
    requires Init(l)
    ensures Invariant(l)
  {
    forall pid | pid in l.mux.protocols ensures EndsOk(l, pid) {
      assert forall lane :: l.mux.queues[pid].Get(lane) == [];
    }
    forall pid, lane | pid in l.mux.protocols && pid in l.opens ensures Conserved(l, pid, lane) {
      assert l.mux.queues[pid].Get(lane) == [];
      assert WholePackets([]) == [];
    }
  }

  // ---------- Queueing keeps it ----------

  lemma FramesEncode(p: Packet, sid: nat, fs: seq<Frame>, window: nat)
    requires PacketOk(p, sid) && FramesOf(p, sid, fs) && FillsWindow(fs, window) && window <= MAX_WINDOW
    requires |p.payload| + 2 < 0x1_0000_0000
    ensures forall f :: f in fs ==> f.pid == p.pid && f.sid == sid && Encodes(f)
  {
    forall f | f in fs ensures f.pid == p.pid && f.sid == sid && Encodes(f) {
      var i :| 0 <= i < |fs| && fs[i] == f;
      assert FrameSize(fs[i]) <= window;
      if i > 0 {
        assert f == fs[1..][i - 1];
      }
      EncodedCmdLength(WholeFrame(p, sid));
    }
  }

  /** Frames of a whole packet behind a queue of whole packets. */
  lemma WholeAppended(q: seq<Frame>, f: Frame)
    ensures HasPayload(WholePackets(q + [f])) == HasPayload(WholePackets(q)) + Emitted(Some(Packet(f.pid, f.cmd, f.payload)))
  {
    var one := [Packet(f.pid, f.cmd, f.payload)];
    assert WholePackets(q + [f]) == WholePackets(q) + one;
    HasPayloadConcat(WholePackets(q), one);
    assert one[1..] == [];
  }

  /** The frames of a cut packet behind a chunked queue. */
  lemma ChunksAppended(open: Option<Open>, q: seq<Frame>, p: Packet, sid: nat, fs: seq<Frame>)
    requires p.cmd < 256 && FramesOf(p, sid, fs) && |fs| > 1 && ChunkRun(open, q).Some?
    ensures ChunkRun(open, q + fs).Some?
    ensures HasPayload(ChunkRun(open, q + fs).value) == HasPayload(ChunkRun(open, q).value) + Emitted(Some(p))
  {
    CutPacketReassembles(p, sid, fs);
    ChunkRunConcat(open, q, fs);
    HasPayloadConcat(ChunkRun(open, q).value, [p]);
    assert [p][1..] == [];
  }

  lemma EnqueuePending(q: Queues, open: Option<Open>, p: Packet, sid: nat, fs: seq<Frame>, prioritize: bool, lane: Lane)
    requires p.cmd < 256 && FramesOf(p, sid, fs) && Enqueue(q, fs, prioritize).Some? && ChunkRun(open, q.chunked).Some?
    ensures Pending(Enqueue(q, fs, prioritize).value, open, lane)
         == Pending(q, open, lane) + if lane == LaneOf(fs, prioritize) then Emitted(Some(p)) else []
    ensures ChunkRun(open, Enqueue(q, fs, prioritize).value.chunked).Some?
  {
    var q' := Enqueue(q, fs, prioritize).value;
    EnqueueAppends(q, fs, prioritize, lane);
    EnqueueAppends(q, fs, prioritize, Chunked);
    if LaneOf(fs, prioritize) == Chunked {
      ChunksAppended(open, q.chunked, p, sid, fs);
    } else if lane == LaneOf(fs, prioritize) {
      assert fs == [fs[0]] && Packet(fs[0].pid, fs[0].cmd, fs[0].payload) == p;
      WholeAppended(q.Get(lane), fs[0]);
    }
    assert lane != LaneOf(fs, prioritize) ==> q'.Get(lane) == q.Get(lane);
  }

  lemma EnqueueKeepsWhole(pid: nat, q: Queues, open: Option<Open>, p: Packet, sid: nat, fs: seq<Frame>, prioritize: bool, lane: Lane, f: Frame)
    requires ProtocolOk(pid, q, open) && FramesOf(p, sid, fs) && Enqueue(q, fs, prioritize).Some?
    requires SidFree(q, open, sid, LaneOf(fs, prioritize))
    requires forall f' :: f' in fs ==> f'.sid == sid
    requires lane != Chunked && f in Enqueue(q, fs, prioritize).value.Get(lane)
    ensures WholeOk(f, Enqueue(q, fs, prioritize).value, open)
  {
    var q' := Enqueue(q, fs, prioritize).value;
    EnqueueAppends(q, fs, prioritize, lane);
    EnqueueAppends(q, fs, prioritize, Chunked);
    assert q'.chunked == q'.Get(Chunked) && q.chunked == q.Get(Chunked);
    if f in q.Get(lane) {
      assert WholeOk(f, q, open);
    } else {
      assert f in fs && lane == LaneOf(fs, prioritize) && fs == [fs[0]];
    }
  }

  lemma EnqueueKeepsOk(pid: nat, q: Queues, open: Option<Open>, p: Packet, sid: nat, fs: seq<Frame>, prioritize: bool)
    requires ProtocolOk(pid, q, open) && p.pid == pid && PacketOk(p, sid) && FramesOf(p, sid, fs)
    requires Enqueue(q, fs, prioritize).Some? && SidFree(q, open, sid, LaneOf(fs, prioritize))
    requires forall f :: f in fs ==> f.pid == pid && f.sid == sid && Encodes(f)
    ensures ProtocolOk(pid, Enqueue(q, fs, prioritize).value, open)
  {
    var q' := Enqueue(q, fs, prioritize).value;
    forall lane, f | f in q'.Get(lane) ensures f.pid == pid && Encodes(f) {
      EnqueueAppends(q, fs, prioritize, lane);
    }
    forall lane, f | lane != Chunked && f in q'.Get(lane) ensures WholeOk(f, q', open) {
      EnqueueKeepsWhole(pid, q, open, p, sid, fs, prioritize, lane, f);
    }
    EnqueuePending(q, open, p, sid, fs, prioritize, Chunked);
  }

  lemma AddedEntry(l: Link, pid: nat, lane: Lane, entry: Entry)
    ensures OfQueue(l.added + [entry], pid, lane)
         == OfQueue(l.added, pid, lane) + if entry.pid == pid && entry.lane == lane then Emitted(Some(entry.packet)) else []
  {
    OfQueueConcat(l.added, [entry], pid, lane);
    assert [entry][1..] == [];
  }

  /** The protocol a packet was queued for. */
  lemma QueueKeepsEnd(l: Link, p: Packet, prioritize: bool, l': Link, lane: Lane)
    requires Invariant(l) && Queue(l, p, prioritize, l') && AddPacket(l.mux, p, prioritize).1
    ensures p.pid in l'.mux.queues && EndsOk(l', p.pid) && Conserved(l', p.pid, lane)
  {
    AddEnqueues(l.mux, p, prioritize);
    AddChangesOneQueue(l.mux, p, prioritize);
    var q, open, sid := l.mux.queues[p.pid], l.opens[p.pid], l.mux.sids[p.pid];
    var window := PacketWindow(l.mux.protocols, l.mux.queues, p.pid);
    var fs := FramesFor(l.mux, p).value;
    assert EndsOk(l, p.pid) && Conserved(l, p.pid, lane);
    CuttingCoversPacket(p, sid, window);
    WindowBounded(l.mux, p.pid);
    FramesEncode(p, sid, fs, window);
    EnqueueKeepsOk(p.pid, q, open, p, sid, fs, prioritize);
    EnqueuePending(q, open, p, sid, fs, prioritize, lane);
    AddedEntry(l, p.pid, lane, Entry(p.pid, LaneOf(fs, prioritize), p));
    Regroup(OfQueue(l.delivered, p.pid, lane), Pending(q, open, lane),
            if lane == LaneOf(fs, prioritize) then Emitted(Some(p)) else []);
  }

  lemma WindowBounded(m: Mux, pid: nat)
    requires pid in m.queues
    ensures PacketWindow(m.protocols, m.queues, pid) <= MAX_WINDOW
  {
  }

  /** A failed attempt to queue changes nothing but the sequence id. */
  lemma RejectionChangesNothing(m: Mux, p: Packet, prioritize: bool)
    requires MuxOk(m) && !AddPacket(m, p, prioritize).1
    ensures var m' := AddPacket(m, p, prioritize).0;
            MuxOk(m') && m'.protocols == m.protocols && m'.queues == m.queues && m'.last == m.last
  {
  }

  lemma AddKeepsMux(m: Mux, p: Packet, prioritize: bool)
    requires MuxOk(m)
    ensures MuxOk(AddPacket(m, p, prioritize).0)
  {
  }

  lemma QueueKeepsInvariant(l: Link, p: Packet, prioritize: bool, l': Link)
    requires Invariant(l) && Queue(l, p, prioritize, l')
    ensures Invariant(l')
  {
    if AddPacket(l.mux, p, prioritize).1 {
      AddKeepsMux(l.mux, p, prioritize);
      AddEnqueues(l.mux, p, prioritize);
      AddChangesOneQueue(l.mux, p, prioritize);
      forall pid | pid in l'.mux.protocols ensures EndsOk(l', pid) {
        if pid == p.pid {
          QueueKeepsEnd(l, p, prioritize, l', Normal);
        } else {
          assert EndsOk(l, pid);
        }
      }
      forall pid, lane | pid in l'.mux.protocols && pid in l'.opens ensures Conserved(l', pid, lane) {
        if pid == p.pid {
          QueueKeepsEnd(l, p, prioritize, l', lane);
        } else {
          assert Conserved(l, pid, lane);
          AddedEntry(l, pid, lane, Entry(p.pid, LaneOf(FramesFor(l.mux, p).value, prioritize), p));
        }
      }
    } else {
      RejectionChangesNothing(l.mux, p, prioritize);
      SameQueues(l, l');
    }
  }

  lemma SameQueues(l: Link, l': Link)
    requires Invariant(l) && l' == l.(mux := l'.mux) && MuxOk(l'.mux)
    requires l'.mux.protocols == l.mux.protocols && l'.mux.queues == l.mux.queues
    ensures Invariant(l')
  {
    forall pid | pid in l'.mux.protocols ensures EndsOk(l', pid) {
      assert EndsOk(l, pid);
    }
    forall pid, lane | pid in l'.mux.protocols && pid in l'.opens ensures Conserved(l', pid, lane) {
      assert Conserved(l, pid, lane);
    }
  }

  // ---------- Sending keeps it ----------

  /** The service of one protocol arrives without a fault. */
  lemma ServiceIsSent(l: Link, pid: nat, b: Batch, q': Queues)
    requires Invariant(l) && pid in l.mux.protocols && TookPrefixes(l.mux.queues[pid], 0, b) && q' == b.queues
    ensures pid in l.opens && pid in l.bufs && Arrive(l.bufs, pid, b.taken).Arrived?
    ensures Arrive(l.bufs, pid, b.taken).bufs == l.bufs[pid := Slots(OpenAfterAll(l.opens[pid], b.taken))]
    ensures ProtocolOk(pid, q', OpenAfterAll(l.opens[pid], b.taken))
    ensures forall lane :: Pending(l.mux.queues[pid], l.opens[pid], lane)
              == OfQueue(Arrive(l.bufs, pid, b.taken).entries, pid, lane) + Pending(q', OpenAfterAll(l.opens[pid], b.taken), lane)
    ensures forall e :: e in Arrive(l.bufs, pid, b.taken).entries ==> e.pid == pid
    ensures forall t :: t in b.taken ==> Encodes(t.frame)
  {
    assert EndsOk(l, pid);
    ServiceArrives(pid, l.mux.queues[pid], l.opens[pid], l.bufs, b.taken, q');
    EntriesOfService(l.bufs, pid, b.taken);
    TakenEncodes(l.mux.queues[pid], b.taken, q');
  }

  /** For the protocol that was served: what left the queues was delivered. */
  lemma ServedStaysConserved(l: Link, mux': Mux, pid: nat, b: Batch, lane: Lane)
    requires Invariant(l) && pid in l.mux.protocols && TookPrefixes(l.mux.queues[pid], 0, b)
    requires pid in mux'.queues && mux'.queues[pid] == b.queues
    ensures pid in l.opens && Arrive(l.bufs, pid, b.taken).Arrived?
    ensures var l' := AfterService(l, mux', pid, b.taken); EndsOk(l', pid) && Conserved(l', pid, lane)
  {
    ServiceIsSent(l, pid, b, b.queues);
    var l' := AfterService(l, mux', pid, b.taken);
    var entries := Arrive(l.bufs, pid, b.taken).entries;
    assert Conserved(l, pid, lane);
    OfQueueConcat(l.delivered, entries, pid, lane);
    Regroup(OfQueue(l.delivered, pid, lane), OfQueue(entries, pid, lane), Pending(b.queues, l'.opens[pid], lane));
  }

  /** A protocol whose queues, slot and deliveries are the same in two links. */
  lemma SameEnd(l: Link, l': Link, pid: nat, lane: Lane)
    requires pid in l.mux.queues && pid in l'.mux.queues && EndsOk(l, pid) && Conserved(l, pid, lane)
    requires l'.mux.queues[pid] == l.mux.queues[pid] && l'.added == l.added
    requires pid in l'.bufs && pid in l'.opens && l'.bufs[pid] == l.bufs[pid] && l'.opens[pid] == l.opens[pid]
    requires OfQueue(l'.delivered, pid, lane) == OfQueue(l.delivered, pid, lane)
    ensures EndsOk(l', pid) && Conserved(l', pid, lane)
  {
  }

  lemma NothingDelivered(l: Link, entries: seq<Entry>, pid: nat, other: nat, lane: Lane)
    requires other != pid && forall e :: e in entries ==> e.pid == pid
    ensures OfQueue(l.delivered + entries, other, lane) == OfQueue(l.delivered, other, lane)
  {
    OfQueueConcat(l.delivered, entries, other, lane);
    NoneForOthers(entries, pid, other, lane);
  }

  /** For the other protocols nothing changes. */
  lemma OthersStayConserved(l: Link, mux': Mux, pid: nat, b: Batch, other: nat, lane: Lane)
    requires Invariant(l) && pid in l.mux.protocols && TookPrefixes(l.mux.queues[pid], 0, b)
    requires other in l.mux.protocols && other != pid && other in mux'.queues && mux'.queues[other] == l.mux.queues[other]
    ensures pid in l.opens && Arrive(l.bufs, pid, b.taken).Arrived?
    ensures var l' := AfterService(l, mux', pid, b.taken); EndsOk(l', other) && Conserved(l', other, lane)
  {
    ServiceIsSent(l, pid, b, b.queues);
    var l' := AfterService(l, mux', pid, b.taken);
    NothingDelivered(l, Arrive(l.bufs, pid, b.taken).entries, pid, other, lane);
    SameEnd(l, l', other, lane);
  }

  lemma {:induction false} NoneForOthers(entries: seq<Entry>, pid: nat, other: nat, lane: Lane)
    requires other != pid && forall e :: e in entries ==> e.pid == pid
    ensures OfQueue(entries, other, lane) == []
    decreases |entries|
  {
    if entries != [] {
      NoneForOthers(entries[1..], pid, other, lane);
    }
  }

  lemma ServiceKeepsInvariant(l: Link, mux': Mux, pid: nat, b: Batch)
    requires Invariant(l) && pid in l.mux.protocols && TookPrefixes(l.mux.queues[pid], 0, b)
    requires MuxOk(mux') && mux'.protocols == l.mux.protocols && mux'.queues == l.mux.queues[pid := b.queues]
    ensures pid in l.opens && Arrive(l.bufs, pid, b.taken).Arrived?
    ensures Invariant(AfterService(l, mux', pid, b.taken))
  {
    ServedStaysConserved(l, mux', pid, b, Normal);
    var l' := AfterService(l, mux', pid, b.taken);
    forall other, lane | other in l'.mux.protocols ensures EndsOk(l', other) && Conserved(l', other, lane) {
      if other == pid {
        ServedStaysConserved(l, mux', pid, b, lane);
      } else {
        OthersStayConserved(l, mux', pid, b, other, lane);
      }
    }
    forall other | other in l'.mux.protocols ensures EndsOk(l', other) {
      assert Conserved(l', other, Normal);
    }
  }

  /** Sending never makes the receiver fail, and keeps the invariant. */
  lemma SendKeepsInvariant(l: Link)
    requires Invariant(l)
    ensures Send(l).Some? && Invariant(Send(l).value)
    ensures Send(l).value.mux == PopFrames(l.mux).0 && Send(l).value.added == l.added
  {
    PopServesOne(l.mux);
    var mux', r := PopFrames(l.mux).0, PopFrames(l.mux).1;
    if r.Nothing? {
      SameQueues(l, l.(mux := mux'));
    } else {
      ServiceKeepsInvariant(l, mux', r.pid, r.batch);
    }
  }

  /**
   * A service seen from the wire: decoding the bytes of its frames gives the packets delivered and
   * the receiver's new buffers, without a fault and without bytes left over.
   */
  lemma WireCarriesService(l: Link)
    requires Invariant(l) && PopFrames(l.mux).1.Served?
    ensures var taken := PopFrames(l.mux).1.batch.taken;
            && (forall f :: f in FramesIn(taken) ==> Encodes(f))
            && Send(l).Some? && |l.delivered| <= |Send(l).value.delivered|
            && Decode(l.bufs, WireBytes(FramesIn(taken)))
                 == Decoded(PacketsOf(Send(l).value.delivered[|l.delivered|..]), Send(l).value.bufs, [], false)
  {
    PopServesOne(l.mux);
    var mux', r := PopFrames(l.mux).0, PopFrames(l.mux).1;
    ServiceIsSent(l, r.pid, r.batch, r.batch.queues);
    ArrivalIsDecoding(l.bufs, r.pid, r.batch.taken);
    var l' := AfterService(l, mux', r.pid, r.batch.taken);
    assert Send(l) == Some(l');
    assert l'.delivered[|l.delivered|..] == Arrive(l.bufs, r.pid, r.batch.taken).entries;
  }

  // ---------- Runs ----------

  ghost predicate Step(l: Link, l': Link) {
    || (exists p, prioritize :: Queue(l, p, prioritize, l'))
    || (MuxOk(l.mux) && l.mux.protocols != [] && Send(l) == Some(l'))
  }

  ghost predicate IsRun(run: seq<Link>) {
    run != [] && Init(run[0]) && forall i :: 0 <= i < |run| - 1 ==> Step(run[i], run[i + 1])
  }

  lemma {:induction false} RunKeepsInvariant(run: seq<Link>, n: nat)
    requires IsRun(run) && n < |run|
    ensures Invariant(run[n])
  {
    if n == 0 {
      InitInvariant(run[0]);
    } else {
      RunKeepsInvariant(run, n - 1);
      var l, l' := run[n - 1], run[n];
      assert Step(l, l');
      if p, prioritize :| Queue(l, p, prioritize, l') {
        QueueKeepsInvariant(l, p, prioritize, l');
      } else {
        SendKeepsInvariant(l);
      }
    }
  }

  /**
   * At every moment of every run: no fault can come from sending, and what a queue has delivered
   * is a prefix of the packets (with payload) that were put into it.
   */
  lemma DeliversInOrder(run: seq<Link>, n: nat, pid: nat, lane: Lane)
    requires IsRun(run) && n < |run| && pid in run[n].mux.protocols
    ensures MuxOk(run[n].mux) && run[n].mux.protocols != [] && Send(run[n]).Some?
    ensures OfQueue(run[n].delivered, pid, lane) <= OfQueue(run[n].added, pid, lane)
  {
    RunKeepsInvariant(run, n);
    SendKeepsInvariant(run[n]);
    assert EndsOk(run[n], pid);
    assert Conserved(run[n], pid, lane);
  }

  /** Sending until nothing more comes. */
  ghost function SendAll(l: Link): (l': Link)
    requires Invariant(l)
    ensures Invariant(l')
    decreases Total(l.mux.protocols, l.mux.queues)
  {
    SendKeepsInvariant(l);
    PopServesOne(l.mux);
    if PopFrames(l.mux).1.Nothing? then Send(l).value else SendAll(Send(l).value)
  }

  lemma IdleHasNothingPending(l: Link, pid: nat, lane: Lane)
    requires Invariant(l) && pid in l.mux.protocols && !Active(l.mux, pid)
    ensures pid in l.opens && pid in l.bufs && Pending(l.mux.queues[pid], l.opens[pid], lane) == [] && l.bufs[pid] == map[]
  {
    assert EndsOk(l, pid);
    assert l.mux.queues[pid].Get(lane) == [];
    assert WholePackets([]) == [];
  }

  /** Sending goes on as long as draining does. */
  lemma {:induction false} SendAllDrains(l: Link)
    requires Invariant(l)
    ensures SendAll(l).mux == PopAll(l.mux).0 && SendAll(l).added == l.added
    decreases Total(l.mux.protocols, l.mux.queues)
  {
    SendKeepsInvariant(l);
    PopServesOne(l.mux);
    if PopFrames(l.mux).1.Served? {
      SendAllDrains(Send(l).value);
    }
  }

  /** Everything a protocol was given has been delivered, and the receiver holds nothing unfinished of it. */
  ghost predicate DeliveredAll(l: Link, pid: nat) {
    && pid in l.mux.queues && pid in l.bufs && !Active(l.mux, pid) && l.bufs[pid] == map[]
    && forall lane :: OfQueue(l.delivered, pid, lane) == OfQueue(l.added, pid, lane)
  }

  lemma IdleHasDelivered(l: Link, pid: nat)
    requires Invariant(l) && pid in l.mux.protocols && !Active(l.mux, pid)
    ensures DeliveredAll(l, pid)
  {
    forall lane ensures OfQueue(l.delivered, pid, lane) == OfQueue(l.added, pid, lane) && l.bufs[pid] == map[] {
      IdleHasNothingPending(l, pid, lane);
      assert EndsOk(l, pid) && Conserved(l, pid, lane);
    }
  }

  /**
   * From any moment of any run: sending until nothing more comes empties every queue if and only if
   * the queues are roomy, that is for each `k` fewer than `k` protocols hold a frame larger than the
   * window for `k`.  Then every queue has delivered exactly the packets put into it, in order, and
   * the receiver holds no unfinished packet.
   */
  lemma DrainDeliversEverythingIff(l: Link)
    requires Invariant(l)
    ensures (forall pid :: pid in l.mux.protocols ==> DeliveredAll(SendAll(l), pid)) <==> Roomy(l.mux)
    ensures SendAll(l).added == l.added
  {
    var l' := SendAll(l);
    SendAllDrains(l);
    EmptiedIffRoomy(l.mux);
    PopAllKeepsProtocols(l.mux);
    if Roomy(l.mux) {
      forall pid | pid in l.mux.protocols ensures DeliveredAll(l', pid) {
        IdleHasDelivered(l', pid);
      }
    }
  }

  // ---------- When the queues stay roomy ----------

  /** Protocol id 0 does not become active behind others. */
  ghost predicate ZeroInTurn(m: Mux, p: Packet) {
    p.pid != 0 || Active(m, 0) || AllIdle(m)
  }

  ghost predicate TurnStep(l: Link, l': Link) {
    || (exists p, prioritize :: ZeroInTurn(l.mux, p) && Queue(l, p, prioritize, l'))
    || (MuxOk(l.mux) && l.mux.protocols != [] && Send(l) == Some(l'))
  }

  ghost predicate IsTurnRun(run: seq<Link>) {
    run != [] && Init(run[0]) && forall i :: 0 <= i < |run| - 1 ==> TurnStep(run[i], run[i + 1])
  }

  lemma TurnStepKeeps(l: Link, l': Link)
    requires Invariant(l) && Roomy(l.mux) && TurnStep(l, l')
    ensures Invariant(l') && Roomy(l'.mux)
  {
    if p, prioritize :| ZeroInTurn(l.mux, p) && Queue(l, p, prioritize, l') {
      QueueKeepsInvariant(l, p, prioritize, l');
      AddKeepsRoomy(l.mux, p, prioritize);
    } else {
      SendKeepsInvariant(l);
      PopKeepsRoomy(l.mux);
    }
  }

  /** In a run in which id 0 never becomes active behind others, the queues are roomy at every moment. */
  lemma {:induction false} TurnRunStaysRoomy(run: seq<Link>, n: nat)
    requires IsTurnRun(run) && n < |run|
    ensures Invariant(run[n]) && Roomy(run[n].mux)
  {
    if n == 0 {
      InitInvariant(run[0]);
      IdleIsRoomy(run[0].mux);
    } else {
      TurnRunStaysRoomy(run, n - 1);
      TurnStepKeeps(run[n - 1], run[n]);
    }
  }

  /** And so draining from any moment of it delivers everything. */
  lemma TurnRunDrains(run: seq<Link>, n: nat, pid: nat)
    requires IsTurnRun(run) && n < |run| && pid in run[n].mux.protocols
    ensures Invariant(run[n]) && SendAll(run[n]).added == run[n].added && DeliveredAll(SendAll(run[n]), pid)
  {
    TurnRunStaysRoomy(run, n);
    DrainDeliversEverythingIff(run[n]);
  }
}

/**
 * Sequence ids have 16 bits and wrap around.  Counting the packets added to a protocol while frames
 * of it are outstanding tells when a reused id is safe, and what happens when it is not.
 */
module Wraparound {
  import opened Options
  import opened Rlp
  import opened Frames
  import opened FrameCodec
  import opened Scheduler
  import opened MuxState
  import opened MuxDrain
  import opened DrainCondition
  import opened Reassembly
  import opened Transfer
  import opened Links

  const IDS := 0x1_0000

  // ---------- Numbering the packets of a protocol ----------

  /** For each queued frame the number of its packet, counting all packets added to the protocol. */
  datatype Numbers = Numbers(priority: seq<nat>, normal: seq<nat>, chunked: seq<nat>)
  {
    function Get(lane: Lane): seq<nat> {
      match lane
      case Priority => priority
      case Normal => normal
      case Chunked => chunked
    }

    function Set(lane: Lane, s: seq<nat>): (r: Numbers)
      ensures r.Get(lane) == s && forall l :: l != lane ==> r.Get(l) == Get(l)
    {
      match lane
      case Priority => this.(priority := s)
      case Normal => this.(normal := s)
      case Chunked => this.(chunked := s)
    }
  }

  /** A link with the number of packets added to each protocol so far. */
  datatype Counted = Counted(link: Link, added: map<nat, nat>, numbers: map<nat, Numbers>)

  /** The frames of one queue carry the numbers of their packets, oldest first, as sequence ids. */
  ghost predicate LaneNumbered(fs: seq<Frame>, ns: seq<nat>, added: nat) {
    && |fs| == |ns|
    && (forall i :: 0 <= i < |fs| ==> fs[i].sid == ns[i] % IDS && ns[i] < added)
    && (forall i, j :: 0 <= i < j < |ns| ==> ns[i] <= ns[j])
  }

  ghost predicate ProtocolNumbered(c: Counted, pid: nat)
    requires pid in c.link.mux.queues && pid in c.link.mux.sids
  {
    && pid in c.added && pid in c.numbers
    && c.link.mux.sids[pid] == c.added[pid] % IDS
    && forall lane :: LaneNumbered(c.link.mux.queues[pid].Get(lane), c.numbers[pid].Get(lane), c.added[pid])
  }

  ghost predicate Numbered(c: Counted) {
    && MuxOk(c.link.mux)
    && forall pid :: pid in c.link.mux.protocols ==> ProtocolNumbered(c, pid)
  }

  /** Fewer packets than there are ids were added since the oldest of these frames was queued. */
  ghost predicate Recent(ns: seq<nat>, added: nat) {
    ns != [] ==> added < ns[0] + IDS
  }

  /**
   * What a sender has to see to, by counting: while frames of a cut packet are queued, fewer than
   * 2^16 packets are added to its protocol; the same for whole packets, when a cut one is added.
   */
  ghost predicate RecentFor(numbers: Numbers, added: nat, lane: Lane) {
    if lane == Chunked then Recent(numbers.priority, added) && Recent(numbers.normal, added)
    else Recent(numbers.chunked, added)
  }

  lemma DifferentIds(a: nat, b: nat)
    requires a < b < a + IDS
    ensures a % IDS != b % IDS
  {
  }

  lemma RecentLaneIsFree(fs: seq<Frame>, ns: seq<nat>, added: nat)
    requires LaneNumbered(fs, ns, added) && Recent(ns, added)
    ensures forall f :: f in fs ==> f.sid != added % IDS
  {
    forall f | f in fs ensures f.sid != added % IDS {
      var i :| 0 <= i < |fs| && fs[i] == f;
      assert ns[0] <= ns[i];
      DifferentIds(ns[i], added);
    }
  }

  /** The packet partly transferred has its next frame at the head of the chunked queue. */
  lemma OpenIsQueued(open: Option<Open>, fs: seq<Frame>)
    requires ChunkRun(open, fs).Some? && open.Some?
    ensures fs != [] && fs[0].sid == open.value.sid
  {
  }

  /** Counting is enough for the sequence id to be free. */
  lemma RecentIsFree(q: Queues, open: Option<Open>, numbers: Numbers, added: nat, lane: Lane)
    requires ChunkRun(open, q.chunked).Some?
    requires forall lane :: LaneNumbered(q.Get(lane), numbers.Get(lane), added)
    requires RecentFor(numbers, added, lane)
    ensures SidFree(q, open, added % IDS, lane)
  {
    if lane == Chunked {
      RecentLaneIsFree(q.Get(Priority), numbers.Get(Priority), added);
      RecentLaneIsFree(q.Get(Normal), numbers.Get(Normal), added);
    } else {
      RecentLaneIsFree(q.Get(Chunked), numbers.Get(Chunked), added);
      if open.Some? {
        OpenIsQueued(open, q.chunked);
        assert q.chunked[0] in q.Get(Chunked);
      }
    }
  }

  // ---------- Runs that are counted ----------

  function Repeat(n: nat, k: nat): (s: seq<nat>)
    ensures |s| == k && forall i :: 0 <= i < k ==> s[i] == n
  {
    seq(k, _ => n)
  }

  /** The numbers after a packet was given the frames `fs`. */
  function NumbersAfterAdd(numbers: Numbers, added: nat, fs: seq<Frame>, prioritize: bool): Numbers {
    var lane := LaneOf(fs, prioritize);
    numbers.Set(lane, numbers.Get(lane) + Repeat(added, |fs|))
  }

  /** What a caller has to see to: as for a link, with the count in the place of the free id. */
  ghost predicate Countable(c: Counted, p: Packet, prioritize: bool) {
    var l := c.link;
    && |p.payload| + 2 < 0x1_0000_0000
    && (p.pid in l.mux.protocols && p.pid in l.mux.queues && p.pid in l.mux.sids && p.pid in c.numbers && p.pid in c.added
        && FramesFor(l.mux, p).Some? ==>
          RecentFor(c.numbers[p.pid], c.added[p.pid], LaneOf(FramesFor(l.mux, p).value, prioritize)))
  }

  /** Queueing: the packet uses up a number even when it is rejected. */
  ghost predicate QueueCounted(c: Counted, p: Packet, prioritize: bool, c': Counted) {
    && Countable(c, p, prioritize)
    && Queued(c.link, p, prioritize, c'.link)
    && if p.pid !in c.link.mux.protocols || p.pid !in c.added || p.pid !in c.numbers then c' == c.(link := c'.link)
       else
         && c'.added == c.added[p.pid := c.added[p.pid] + 1]
         && c'.numbers == if AddPacket(c.link.mux, p, prioritize).1 && p.pid in c.link.mux.queues && p.pid in c.link.mux.sids
                             && FramesFor(c.link.mux, p).Some?
                          then c.numbers[p.pid := NumbersAfterAdd(c.numbers[p.pid], c.added[p.pid], FramesFor(c.link.mux, p).value, prioritize)]
                          else c.numbers
  }

  function NumbersAfterService(numbers: Numbers, taken: seq<Tagged>): Numbers {
    Numbers(Behind(numbers.priority, |OfLane(taken, Priority)|),
            Behind(numbers.normal, |OfLane(taken, Normal)|),
            Behind(numbers.chunked, |OfLane(taken, Chunked)|))
  }

  function Behind(s: seq<nat>, k: nat): seq<nat> {
    if k <= |s| then s[k..] else []
  }

  ghost predicate SendCounted(c: Counted, c': Counted) {
    && MuxOk(c.link.mux) && c.link.mux.protocols != [] && Send(c.link) == Some(c'.link)
    && c'.added == c.added
    && match PopFrames(c.link.mux).1
       case Nothing => c'.numbers == c.numbers
       case Served(pid, b) =>
         c'.numbers == if pid in c.numbers then c.numbers[pid := NumbersAfterService(c.numbers[pid], b.taken)] else c.numbers
  }

  ghost predicate InitCounted(c: Counted) {
    && Init(c.link) && MuxOk(c.link.mux)
    && c.added == c.link.mux.sids
    && c.numbers == map pid | pid in c.link.mux.queues :: Numbers([], [], [])
  }

  ghost predicate StepCounted(c: Counted, c': Counted) {
    (exists p, prioritize :: QueueCounted(c, p, prioritize, c')) || SendCounted(c, c')
  }

  ghost predicate IsCountedRun(run: seq<Counted>) {
    run != [] && InitCounted(run[0]) && forall i :: 0 <= i < |run| - 1 ==> StepCounted(run[i], run[i + 1])
  }

  // ---------- Counting goes along ----------

  lemma InitIsNumbered(c: Counted)
    requires InitCounted(c)
    ensures Numbered(c)
  {
    forall pid | pid in c.link.mux.protocols ensures ProtocolNumbered(c, pid) {
      assert forall lane :: c.link.mux.queues[pid].Get(lane) == [] && c.numbers[pid].Get(lane) == [];
    }
  }

  /** A counted step of queueing is a step of the link: the sequence id is free. */
  lemma CountedIsAdmissible(c: Counted, p: Packet, prioritize: bool)
    requires Numbered(c) && Invariant(c.link) && Countable(c, p, prioritize)
    ensures Admissible(c.link, p, prioritize)
  {
    var l := c.link;
    if p.pid in l.mux.protocols && p.pid in l.opens && FramesFor(l.mux, p).Some? {
      assert ProtocolNumbered(c, p.pid) && EndsOk(l, p.pid);
      RecentIsFree(l.mux.queues[p.pid], l.opens[p.pid], c.numbers[p.pid], c.added[p.pid],
                   LaneOf(FramesFor(l.mux, p).value, prioritize));
    }
  }

  lemma LaneAfterAdd(fs: seq<Frame>, ns: seq<nat>, added: nat, more: seq<Frame>)
    requires LaneNumbered(fs, ns, added) && forall f :: f in more ==> f.sid == added % IDS
    ensures LaneNumbered(fs + more, ns + Repeat(added, |more|), added + 1)
  {
    forall i | 0 <= i < |fs + more| ensures (fs + more)[i].sid == (ns + Repeat(added, |more|))[i] % IDS {
      if i >= |fs| {
        assert (fs + more)[i] in more;
      }
    }
  }

  lemma LaneLater(fs: seq<Frame>, ns: seq<nat>, added: nat)
    requires LaneNumbered(fs, ns, added)
    ensures LaneNumbered(fs, ns, added + 1)
  {
  }

  lemma NextId(added: nat)
    ensures (added % IDS + 1) % 0x1_0000 == (added + 1) % IDS
  {
  }

  /** The queues of the protocol a packet was queued for. */
  lemma QueuesAfterAdd(q: Queues, numbers: Numbers, added: nat, fs: seq<Frame>, prioritize: bool, lane: Lane)
    requires fs != [] && Enqueue(q, fs, prioritize).Some? && forall f :: f in fs ==> f.sid == added % IDS
    requires LaneNumbered(q.Get(lane), numbers.Get(lane), added)
    ensures LaneNumbered(Enqueue(q, fs, prioritize).value.Get(lane), NumbersAfterAdd(numbers, added, fs, prioritize).Get(lane), added + 1)
  {
    EnqueueAppends(q, fs, prioritize, lane);
    if lane == LaneOf(fs, prioritize) {
      LaneAfterAdd(q.Get(lane), numbers.Get(lane), added, fs);
    } else {
      assert q.Get(lane) + [] == q.Get(lane);
      LaneLater(q.Get(lane), numbers.Get(lane), added);
    }
  }

  lemma PacketSids(m: Mux, p: Packet)
    requires p.pid in m.queues && p.pid in m.sids && FramesFor(m, p).Some?
    ensures forall f :: f in FramesFor(m, p).value ==> f.sid == m.sids[p.pid]
  {
    var fs, sid := FramesFor(m, p).value, m.sids[p.pid];
    CuttingCoversPacket(p, sid, PacketWindow(m.protocols, m.queues, p.pid));
    forall f | f in fs ensures f.sid == sid {
      assert f == fs[0] || f in fs[1..];
    }
  }

  lemma ProtocolAfterAdd(c: Counted, pid: nat, fs: seq<Frame>, prioritize: bool, c': Counted)
    requires pid in c.link.mux.queues && pid in c.link.mux.sids && ProtocolNumbered(c, pid)
    requires fs != [] && forall f :: f in fs ==> f.sid == c.link.mux.sids[pid]
    requires pid in c'.link.mux.queues && Enqueue(c.link.mux.queues[pid], fs, prioritize) == Some(c'.link.mux.queues[pid])
    requires pid in c'.link.mux.sids && c'.link.mux.sids[pid] == (c.link.mux.sids[pid] + 1) % 0x1_0000
    requires pid in c'.added && c'.added[pid] == c.added[pid] + 1
    requires pid in c'.numbers && c'.numbers[pid] == NumbersAfterAdd(c.numbers[pid], c.added[pid], fs, prioritize)
    ensures ProtocolNumbered(c', pid)
  {
    NextId(c.added[pid]);
    forall lane ensures LaneNumbered(c'.link.mux.queues[pid].Get(lane), c'.numbers[pid].Get(lane), c'.added[pid]) {
      QueuesAfterAdd(c.link.mux.queues[pid], c.numbers[pid], c.added[pid], fs, prioritize, lane);
    }
  }

  /** What queueing does to the counts of a protocol the multiplexer has. */
  lemma CountsAfterAdd(c: Counted, p: Packet, prioritize: bool, c': Counted)
    requires QueueCounted(c, p, prioritize, c') && p.pid in c.link.mux.protocols && p.pid in c.added && p.pid in c.numbers
    ensures c'.link.mux == AddPacket(c.link.mux, p, prioritize).0
    ensures p.pid in c'.added && c'.added[p.pid] == c.added[p.pid] + 1 && p.pid in c'.numbers
    ensures AddPacket(c.link.mux, p, prioritize).1 && p.pid in c.link.mux.queues && p.pid in c.link.mux.sids && FramesFor(c.link.mux, p).Some? ==>
              c'.numbers[p.pid] == NumbersAfterAdd(c.numbers[p.pid], c.added[p.pid], FramesFor(c.link.mux, p).value, prioritize)
    ensures !AddPacket(c.link.mux, p, prioritize).1 ==> c'.numbers == c.numbers
  {
  }

  lemma AcceptedStaysNumbered(c: Counted, p: Packet, prioritize: bool, m': Mux, c': Counted)
    requires MuxOk(c.link.mux) && AddPacket(c.link.mux, p, prioritize) == (m', true) && c'.link.mux == m'
    requires p.pid in c.link.mux.protocols && ProtocolNumbered(c, p.pid) && FramesFor(c.link.mux, p).Some?
    requires p.pid in c'.added && c'.added[p.pid] == c.added[p.pid] + 1
    requires p.pid in c'.numbers
    requires c'.numbers[p.pid] == NumbersAfterAdd(c.numbers[p.pid], c.added[p.pid], FramesFor(c.link.mux, p).value, prioritize)
    ensures p.pid in m'.queues && p.pid in m'.sids && ProtocolNumbered(c', p.pid)
  {
    AddEnqueues(c.link.mux, p, prioritize);
    AddChangesOneQueue(c.link.mux, p, prioritize);
    PacketSids(c.link.mux, p);
    ProtocolAfterAdd(c, p.pid, FramesFor(c.link.mux, p).value, prioritize, c');
  }

  lemma RefusedStaysNumbered(c: Counted, p: Packet, prioritize: bool, m': Mux, c': Counted)
    requires MuxOk(c.link.mux) && AddPacket(c.link.mux, p, prioritize) == (m', false) && c'.link.mux == m'
    requires p.pid in c.link.mux.protocols && ProtocolNumbered(c, p.pid)
    requires p.pid in c'.added && c'.added[p.pid] == c.added[p.pid] + 1 && c'.numbers == c.numbers
    ensures p.pid in m'.queues && p.pid in m'.sids && ProtocolNumbered(c', p.pid)
  {
    RejectionChangesNothing(c.link.mux, p, prioritize);
    NextId(c.added[p.pid]);
    forall lane ensures LaneNumbered(m'.queues[p.pid].Get(lane), c'.numbers[p.pid].Get(lane), c'.added[p.pid]) {
      LaneLater(c.link.mux.queues[p.pid].Get(lane), c.numbers[p.pid].Get(lane), c.added[p.pid]);
    }
  }

  lemma SameProtocolNumbered(c: Counted, c': Counted, pid: nat)
    requires pid in c.link.mux.queues && pid in c.link.mux.sids && ProtocolNumbered(c, pid)
    requires pid in c'.link.mux.queues && pid in c'.link.mux.sids && pid in c'.added && pid in c'.numbers
    requires c'.link.mux.queues[pid] == c.link.mux.queues[pid] && c'.link.mux.sids[pid] == c.link.mux.sids[pid]
    requires c'.added[pid] == c.added[pid] && c'.numbers[pid] == c.numbers[pid]
    ensures ProtocolNumbered(c', pid)
  {
  }

  lemma QueueingStaysNumbered(c: Counted, p: Packet, prioritize: bool, c': Counted)
    requires Numbered(c) && QueueCounted(c, p, prioritize, c')
    ensures Numbered(c')
  {
    var m, m' := c.link.mux, c'.link.mux;
    if p.pid in m.protocols {
      assert ProtocolNumbered(c, p.pid);
      CountsAfterAdd(c, p, prioritize, c');
      if AddPacket(m, p, prioritize).1 {
        AddEnqueues(m, p, prioritize);
        AddChangesOneQueue(m, p, prioritize);
        AcceptedStaysNumbered(c, p, prioritize, m', c');
      } else {
        RejectionChangesNothing(m, p, prioritize);
        RefusedStaysNumbered(c, p, prioritize, m', c');
      }
    }
    forall pid | pid in c'.link.mux.protocols ensures ProtocolNumbered(c', pid) {
      if pid != p.pid {
        assert ProtocolNumbered(c, pid);
        SameProtocolNumbered(c, c', pid);
      }
    }
  }

  lemma LaneAfterService(fs: seq<Frame>, ns: seq<nat>, added: nat, taken: seq<Frame>, fs': seq<Frame>)
    requires LaneNumbered(fs, ns, added) && taken + fs' == fs
    ensures LaneNumbered(fs', Behind(ns, |taken|), added)
  {
    assert fs' == fs[|taken|..];
  }

  lemma ServiceStaysNumbered(c: Counted, c': Counted, pid: nat, b: Batch)
    requires pid in c.link.mux.queues && pid in c.link.mux.sids && ProtocolNumbered(c, pid)
    requires TookPrefixes(c.link.mux.queues[pid], 0, b)
    requires pid in c'.link.mux.queues && c'.link.mux.queues[pid] == b.queues && c'.link.mux.sids == c.link.mux.sids
    requires c'.added == c.added && pid in c'.numbers && c'.numbers[pid] == NumbersAfterService(c.numbers[pid], b.taken)
    ensures ProtocolNumbered(c', pid)
  {
    forall lane ensures LaneNumbered(b.queues.Get(lane), c'.numbers[pid].Get(lane), c.added[pid]) {
      LaneAfterService(c.link.mux.queues[pid].Get(lane), c.numbers[pid].Get(lane), c.added[pid], OfLane(b.taken, lane), b.queues.Get(lane));
    }
  }

  lemma SendingStaysNumbered(c: Counted, c': Counted, pid: nat)
    requires Numbered(c) && SendCounted(c, c') && c'.link.mux == PopFrames(c.link.mux).0
    requires pid in c.link.mux.protocols
    ensures pid in c'.link.mux.queues && pid in c'.link.mux.sids && ProtocolNumbered(c', pid)
  {
    PopServesOne(c.link.mux);
    var r := PopFrames(c.link.mux).1;
    assert ProtocolNumbered(c, pid);
    if r.Served? && pid == r.pid {
      ServiceStaysNumbered(c, c', pid, r.batch);
    } else {
      SameProtocolNumbered(c, c', pid);
    }
  }

  // ---------- Main results ----------

  lemma CountedStep(c: Counted, c': Counted)
    requires Numbered(c) && Invariant(c.link) && StepCounted(c, c')
    ensures Step(c.link, c'.link) && Numbered(c') && Invariant(c'.link)
  {
    if p, prioritize :| QueueCounted(c, p, prioritize, c') {
      CountedIsAdmissible(c, p, prioritize);
      assert Queue(c.link, p, prioritize, c'.link);
      QueueKeepsInvariant(c.link, p, prioritize, c'.link);
      QueueingStaysNumbered(c, p, prioritize, c');
    } else {
      SendKeepsInvariant(c.link);
      PopServesOne(c.link.mux);
      forall pid | pid in c'.link.mux.protocols ensures ProtocolNumbered(c', pid) {
        SendingStaysNumbered(c, c', pid);
      }
    }
  }

  /** Every state of a counted run is numbered, and its links form a run in which every id is free. */
  lemma {:induction false} CountedRunKeeps(run: seq<Counted>, n: nat)
    requires IsCountedRun(run) && n < |run|
    ensures Numbered(run[n]) && Invariant(run[n].link)
    ensures n > 0 ==> Step(run[n - 1].link, run[n].link)
    decreases n
  {
    if n == 0 {
      InitIsNumbered(run[0]);
      InitInvariant(run[0].link);
    } else {
      CountedRunKeeps(run, n - 1);
      CountedStep(run[n - 1], run[n]);
    }
  }

  /**
   * In every run in which fewer than 2^16 packets are added to a protocol while a packet is
   * outstanding that theirs could be confused with: sending never faults, and each queue has
   * delivered a prefix of the packets (with payload) that were put into it.
   */
  lemma CountedRunDelivers(run: seq<Counted>, n: nat, pid: nat, lane: Lane)
    requires IsCountedRun(run) && n < |run| && pid in run[n].link.mux.protocols
    ensures var l := run[n].link;
            && MuxOk(l.mux) && l.mux.protocols != [] && Send(l).Some?
            && OfQueue(l.delivered, pid, lane) <= OfQueue(l.added, pid, lane)
  {
    CountedRunKeeps(run, n);
    SendKeepsInvariant(run[n].link);
    assert EndsOk(run[n].link, pid);
    assert Conserved(run[n].link, pid, lane);
  }

  /** And draining from there delivers everything that was added exactly when the queues are roomy. */
  lemma CountedRunDrainsIff(run: seq<Counted>, n: nat)
    requires IsCountedRun(run) && n < |run|
    ensures Invariant(run[n].link) && SendAll(run[n].link).added == run[n].link.added
    ensures (forall pid :: pid in run[n].link.mux.protocols ==> DeliveredAll(SendAll(run[n].link), pid))
       <==> Roomy(run[n].link.mux)
  {
    CountedRunKeeps(run, n);
    DrainDeliversEverythingIff(run[n].link);
  }
}

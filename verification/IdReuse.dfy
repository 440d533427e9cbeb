/**
 * A sequence id that is used again too early: a packet of two frames waits while 2^16 small ones
 * go past it.  The last of these gets the id of the waiting packet; it is never delivered, and the
 * next frame makes the receiver fault.
 */
module IdReuse {
  import opened Options
  import opened Rlp
  import opened Frames
  import opened FrameCodec
  import opened Scheduler
  import opened MuxState
  import opened Reassembly
  import opened Transfer
  import opened Links
  import opened Wraparound

  // ---------- Runs in which nothing is asked of the sequence ids ----------

  ghost predicate AnyStep(l: Link, l': Link) {
    || (exists p, prioritize :: Queued(l, p, prioritize, l'))
    || (MuxOk(l.mux) && l.mux.protocols != [] && Send(l) == Some(l'))
  }

  ghost predicate IsAnyRun(run: seq<Link>) {
    run != [] && Init(run[0]) && forall i :: 0 <= i < |run| - 1 ==> AnyStep(run[i], run[i + 1])
  }

  /** The last state of a run. */
  ghost predicate EndsIn(run: seq<Link>, l: Link) {
    IsAnyRun(run) && run[|run| - 1] == l
  }

  lemma TwoMore(run: seq<Link>, l: Link, l1: Link, l2: Link) returns (run': seq<Link>)
    requires EndsIn(run, l) && AnyStep(l, l1) && AnyStep(l1, l2)
    ensures EndsIn(run', l2)
  {
    run' := run + [l1, l2];
    forall i | 0 <= i < |run'| - 1 ensures AnyStep(run'[i], run'[i + 1]) {
      assert i < |run| - 1 ==> AnyStep(run[i], run[i + 1]);
    }
  }

  // ---------- One protocol ----------

  function OneProtocol(q: Queues, sid: nat): Mux {
    Mux([1], map[1 := q], map[1 := sid], 1)
  }

  lemma OneProtocolOk(q: Queues, sid: nat)
    requires sid < IDS
    ensures MuxOk(OneProtocol(q, sid))
    ensures SendWindow([1], map[1 := q]) == 8192 && PacketWindow([1], map[1 := q], 1) == 8192
  {
    assert [1][1..] == [];
    assert ActiveCount([1], map[1 := q]) == if q.Active() then 1 else 0;
  }

  lemma PopOneProtocol(q: Queues, sid: nat, b: Batch)
    requires sid < IDS && Drain(q, 8192) == b && b.taken != []
    ensures MuxOk(OneProtocol(q, sid))
    ensures PopFrames(OneProtocol(q, sid)) == (OneProtocol(b.queues, sid), Served(1, b))
  {
    OneProtocolOk(q, sid);
    assert Rotation([1], 0) == [1];
    assert FirstServed([1], map[1 := q], 8192) == Served(1, b);
    assert map[1 := q][1 := b.queues] == map[1 := b.queues];
  }

  lemma AddToOneProtocol(q: Queues, sid: nat, p: Packet, prioritize: bool, fs: seq<Frame>, q': Queues)
    requires sid < IDS && p.pid == 1 && fs != []
    requires PacketFrames(p, sid, 8192) == Some(fs) && Enqueue(q, fs, prioritize) == Some(q')
    ensures FramesFor(OneProtocol(q, sid), p) == Some(fs)
    ensures AddPacket(OneProtocol(q, sid), p, prioritize) == (OneProtocol(q', (sid + 1) % IDS), true)
  {
    OneProtocolOk(q, sid);
    assert map[1 := q][1 := q'] == map[1 := q'];
    assert map[1 := sid][1 := (sid + 1) % IDS] == map[1 := (sid + 1) % IDS];
  }

  // ---------- The packets ----------

  /** Two full windows. */
  function Big(): Packet {
    Packet(1, 0, Zeros(16287))
  }

  function FirstHalf(): Frame {
    Frame(1, 0, Zeros(8143), 0, false, Some(16288))
  }

  function SecondHalf(): Frame {
    Frame(1, 0, Zeros(8144), 0, true, None)
  }

  function Small(): Packet {
    Packet(1, 0, [7])
  }

  function SmallFrame(sid: nat): Frame {
    WholeFrame(Small(), sid)
  }

  lemma Sizes(sid: nat)
    ensures FrameSize(FirstHalf()) == 8192 && FrameSize(SecondHalf()) == 8192
    ensures EncodedCmd(SmallFrame(sid)) == [0x80] && FrameSize(SmallFrame(sid)) == 64
  {
    EncodedCmdLength(FirstHalf());
    EncodedCmdLength(SmallFrame(sid));
    assert BodySize(FirstHalf()) == 8144 && BodySize(SecondHalf()) == 8144 && BodySize(SmallFrame(sid)) == 2;
  }

  lemma BigIsCut()
    ensures PacketFrames(Big(), 0, 8192) == Some([FirstHalf(), SecondHalf()])
  {
    var f := WholeFrame(Big(), 0);
    Sizes(0);
    EncodedCmdLength(f);
    assert BodySize(f) == 16288 && FrameSize(f) == 16336 && Kept(f, 8192) == 8143;
    assert FirstFrame(Big(), 0, 8192) == FirstHalf() by {
      assert Zeros(16287)[..8143] == Zeros(8143);
    }
    assert Remainder(Big(), 0, 8192) == Zeros(8144);
    assert ContinuationFrames(1, 0, Zeros(8144), 0, 8192) == [SecondHalf()];
    assert [FirstHalf()] + [SecondHalf()] == [FirstHalf(), SecondHalf()];
  }

  lemma SmallIsWhole(sid: nat)
    requires sid < IDS
    ensures PacketFrames(Small(), sid, 8192) == Some([SmallFrame(sid)])
  {
    Sizes(sid);
  }

  // ---------- What is sent ----------

  /** Only the first frame of the big packet fits the window. */
  lemma DrainHalf()
    ensures Drain(Queues([], [], [FirstHalf(), SecondHalf()]), 8192)
         == Batch([Tagged(Chunked, FirstHalf())], Queues([], [], [SecondHalf()]), 8192)
  {
    Sizes(0);
    var q := Queues([], [], [FirstHalf(), SecondHalf()]);
    VisitThree(q, 0);
    assert [FirstHalf(), SecondHalf()][1..] == [SecondHalf()];
  }

  /** Behind a small frame of the priority queue, the second frame of the big packet does not. */
  lemma DrainSmall(sid: nat)
    ensures Drain(Queues([SmallFrame(sid)], [], [SecondHalf()]), 8192)
         == Batch([Tagged(Priority, SmallFrame(sid))], Queues([], [], [SecondHalf()]), 64)
  {
    Sizes(sid);
    VisitThree(Queues([SmallFrame(sid)], [], [SecondHalf()]), 0);
    VisitThree(Queues([], [], [SecondHalf()]), 64);
    assert [SmallFrame(sid)][1..] == [];
  }

  lemma DrainSecond()
    ensures Drain(Queues([], [], [SecondHalf()]), 8192)
         == Batch([Tagged(Chunked, SecondHalf())], Queues([], [], []), 8192)
  {
    Sizes(0);
    VisitThree(Queues([], [], [SecondHalf()]), 0);
    assert [SecondHalf()][1..] == [];
  }

  lemma VisitThree(q: Queues, size: nat)
    ensures Cycle(q, size, 8192) == Take(Take(Take(Batch([], q, size), Priority, 8192), Normal, 8192), Chunked, 8192)
  {
    assert LANES[1..] == [Normal, Chunked];
    assert LANES[1..][1..] == [Chunked];
    assert LANES[1..][1..][1..] == [];
  }

  // ---------- What is received ----------

  function HalfReceived(): Partial {
    Partial(0, Zeros(8143), 16287)
  }

  function HalfBuffers(): Buffers {
    map[1 := map[0 := HalfReceived()]]
  }

  lemma FirstArrives()
    ensures Arrive(map[1 := map[]], 1, [Tagged(Chunked, FirstHalf())]) == Arrived([], HalfBuffers())
  {
    Sizes(0);
    EncodedCmdLength(FirstHalf());
    var t := [Tagged(Chunked, FirstHalf())];
    var bufs: Buffers := map[1 := map[]];
    assert bufs[1] == Slots(None);
    assert ChunkNext(None, FirstHalf()) == Next(Some(Open(0, HalfReceived())), None);
    ChunkFrameReceived(bufs, None, FirstHalf());
    assert bufs[1 := Slots(Some(Open(0, HalfReceived())))] == HalfBuffers();
    assert t[1..] == [];
  }

  /** A whole frame under an id that is free is delivered. */
  lemma SmallArrives(sid: nat)
    requires sid != 0
    ensures Arrive(HalfBuffers(), 1, [Tagged(Priority, SmallFrame(sid))])
         == Arrived([Entry(1, Priority, Small())], HalfBuffers())
  {
    var t := [Tagged(Priority, SmallFrame(sid))];
    assert HalfBuffers()[1] == Slots(Some(Open(0, HalfReceived())));
    WholeFrameReceived(HalfBuffers(), Some(Open(0, HalfReceived())), SmallFrame(sid));
    assert t[1..] == [];
  }

  function SpoiltReceived(): Partial {
    Partial(0, Zeros(8143) + [0x80, 7], 16287)
  }

  /** Under the id of the waiting packet it is taken for the next part of that packet. */
  lemma SmallSpoils()
    ensures Arrive(HalfBuffers(), 1, [Tagged(Priority, SmallFrame(0))])
         == Arrived([], map[1 := map[0 := SpoiltReceived()]])
  {
    Sizes(0);
    var t := [Tagged(Priority, SmallFrame(0))];
    var body := EncodedCmd(SmallFrame(0)) + [7];
    assert body == [0x80, 7];
    assert ParsedFrame(SmallFrame(0)) == Parsed(1, Some(0), None, body);
    var slots: map<nat, Partial> := HalfBuffers()[1][0 := SpoiltReceived()];
    assert slots == map[0 := SpoiltReceived()];
    assert HalfBuffers()[1 := slots] == map[1 := map[0 := SpoiltReceived()]];
    assert t[1..] == [];
  }

  lemma SecondFaults()
    ensures Arrive(map[1 := map[0 := SpoiltReceived()]], 1, [Tagged(Chunked, SecondHalf())]) == Lost
  {
    assert |SpoiltReceived().payload + (EncodedCmd(SecondHalf()) + SecondHalf().payload)| == 16289;
  }

  // ---------- The run ----------

  function Smalls(n: nat): seq<Entry> {
    seq(n, _ => Entry(1, Priority, Small()))
  }

  /** The big packet is half transferred, and `k` small ones have gone past it. */
  ghost predicate Waiting(l: Link, k: nat) {
    && k + 1 < IDS + 1
    && l.mux == OneProtocol(Queues([], [], [SecondHalf()]), (k + 1) % IDS)
    && l.bufs == HalfBuffers() && 1 in l.opens
    && l.added == [Entry(1, Chunked, Big())] + Smalls(k) && l.delivered == Smalls(k)
  }

  function Start(): Link {
    Link(OneProtocol(Queues([], [], []), 0), map[1 := map[]], [], [], map[1 := None])
  }

  lemma StartOk()
    ensures Init(Start())
  {
    OneProtocolOk(Queues([], [], []), 0);
  }

  function BothHalves(): Queues {
    Queues([], [], [FirstHalf(), SecondHalf()])
  }

  function BigAdded(): Link {
    Start().(mux := OneProtocol(BothHalves(), 1), added := [Entry(1, Chunked, Big())])
  }

  lemma BigIsAdded()
    ensures AnyStep(Start(), BigAdded())
  {
    BigIsCut();
    assert [] + [FirstHalf(), SecondHalf()] == [FirstHalf(), SecondHalf()];
    AddToOneProtocol(Queues([], [], []), 0, Big(), false, [FirstHalf(), SecondHalf()], BothHalves());
    assert Queued(Start(), Big(), false, BigAdded());
  }

  lemma BigIsHalfSent() returns (l: Link)
    ensures AnyStep(BigAdded(), l) && Waiting(l, 0)
  {
    DrainHalf();
    FirstArrives();
    var b := Batch([Tagged(Chunked, FirstHalf())], Queues([], [], [SecondHalf()]), 8192);
    PopOneProtocol(BothHalves(), 1, b);
    l := AfterService(BigAdded(), OneProtocol(b.queues, 1), 1, b.taken);
    SentIs(BigAdded(), OneProtocol(b.queues, 1), b, l);
    assert l.delivered == [];
    WaitsForSecond(l);
  }

  lemma WaitsForSecond(l: Link)
    requires l.mux == OneProtocol(Queues([], [], [SecondHalf()]), 1) && l.bufs == HalfBuffers() && 1 in l.opens
    requires l.added == [Entry(1, Chunked, Big())] && l.delivered == []
    ensures Waiting(l, 0)
  {
    assert Smalls(0) == [];
    assert l.added == l.added + [];
  }

  /** A service that arrives is a step. */
  lemma SentIs(l: Link, mux': Mux, b: Batch, l': Link)
    requires MuxOk(l.mux) && l.mux.protocols != [] && PopFrames(l.mux) == (mux', Served(1, b))
    requires 1 in l.opens && Arrive(l.bufs, 1, b.taken).Arrived? && l' == AfterService(l, mux', 1, b.taken)
    ensures AnyStep(l, l')
  {
    assert Send(l) == Some(l');
  }

  /** One more small packet is in the queue, under the id `sid`. */
  ghost predicate Passing(l: Link, k: nat, sid: nat) {
    && sid < IDS && l.mux == OneProtocol(Queues([SmallFrame(sid)], [], [SecondHalf()]), (sid + 1) % IDS)
    && l.bufs == HalfBuffers() && 1 in l.opens
    && l.added == [Entry(1, Chunked, Big())] + Smalls(k + 1) && l.delivered == Smalls(k)
  }

  lemma SmallIsAdded(l: Link, k: nat, sid: nat) returns (l1: Link)
    requires Waiting(l, k) && sid == (k + 1) % IDS
    ensures AnyStep(l, l1) && Passing(l1, k, sid)
  {
    var q := Queues([], [], [SecondHalf()]);
    var q' := Queues([SmallFrame(sid)], [], [SecondHalf()]);
    SmallIsWhole(sid);
    Sizes(sid);
    assert [] + [SmallFrame(sid)] == [SmallFrame(sid)];
    AddToOneProtocol(q, sid, Small(), true, [SmallFrame(sid)], q');
    l1 := l.(mux := OneProtocol(q', (sid + 1) % IDS), added := l.added + [Entry(1, Priority, Small())]);
    assert Queued(l, Small(), true, l1);
    assert Smalls(k + 1) == Smalls(k) + [Entry(1, Priority, Small())];
  }

  /** And sent, ahead of the frame that is waiting. */
  lemma SmallIsSent(l: Link, k: nat) returns (l2: Link)
    requires k + 1 < IDS && Passing(l, k, k + 1)
    ensures AnyStep(l, l2) && Waiting(l2, k + 1)
  {
    DrainSmall(k + 1);
    SmallArrives(k + 1);
    var q := Queues([SmallFrame(k + 1)], [], [SecondHalf()]);
    var b := Drain(q, 8192);
    PopOneProtocol(q, (k + 2) % IDS, b);
    l2 := AfterService(l, OneProtocol(b.queues, (k + 2) % IDS), 1, b.taken);
    assert Send(l) == Some(l2);
    assert Smalls(k + 1) == Smalls(k) + [Entry(1, Priority, Small())];
  }

  lemma OneGoesPast(l: Link, k: nat) returns (l1: Link, l2: Link)
    requires k + 1 < IDS && Waiting(l, k)
    ensures AnyStep(l, l1) && AnyStep(l1, l2) && Waiting(l2, k + 1)
  {
    l1 := SmallIsAdded(l, k, k + 1);
    l2 := SmallIsSent(l1, k);
  }

  lemma {:induction false} SmallsGoPast(k: nat) returns (run: seq<Link>, l: Link)
    requires k < IDS
    ensures EndsIn(run, l) && Waiting(l, k)
  {
    if k == 0 {
      StartOk();
      BigIsAdded();
      l := BigIsHalfSent();
      run := TwoMore([Start()], Start(), BigAdded(), l);
    } else {
      run, l := SmallsGoPast(k - 1);
      var l1, l2 := OneGoesPast(l, k - 1);
      run := TwoMore(run, l, l1, l2);
      l := l2;
    }
  }

  /** The small packet that gets the id of the waiting one is swallowed. */
  lemma SmallIsSwallowed(l: Link) returns (l2: Link)
    requires Passing(l, IDS - 1, 0)
    ensures AnyStep(l, l2) && Spoilt(l2) && l2.added == l.added && l2.delivered == l.delivered
  {
    DrainSmall(0);
    SmallSpoils();
    var q := Queues([SmallFrame(0)], [], [SecondHalf()]);
    var b := Drain(q, 8192);
    PopOneProtocol(q, 1, b);
    l2 := AfterService(l, OneProtocol(b.queues, 1), 1, b.taken);
    assert Send(l) == Some(l2);
  }

  ghost predicate Spoilt(l: Link) {
    && l.mux == OneProtocol(Queues([], [], [SecondHalf()]), 1)
    && l.bufs == map[1 := map[0 := SpoiltReceived()]]
  }

  lemma LastIsSwallowed(l: Link) returns (l1: Link, l2: Link)
    requires Waiting(l, IDS - 1)
    ensures AnyStep(l, l1) && AnyStep(l1, l2) && Spoilt(l2)
    ensures l2.added == [Entry(1, Chunked, Big())] + Smalls(IDS) && l2.delivered == Smalls(IDS - 1)
  {
    l1 := SmallIsAdded(l, IDS - 1, 0);
    l2 := SmallIsSwallowed(l1);
  }

  lemma SecondIsLost(l: Link)
    requires Spoilt(l)
    ensures MuxOk(l.mux) && l.mux.protocols != [] && Send(l) == None
  {
    DrainSecond();
    SecondFaults();
    PopOneProtocol(Queues([], [], [SecondHalf()]), 1, Drain(Queues([], [], [SecondHalf()]), 8192));
  }

  /**
   * A run in which 2^16 packets of one protocol are queued behind one that is cut: the last of them
   * is sent and never delivered, the others are, and the next frame sent is a fault.
   */
  lemma ReusedIdFaults() returns (run: seq<Link>, l: Link)
    ensures EndsIn(run, l)
    ensures l.added == [Entry(1, Chunked, Big())] + Smalls(IDS) && l.delivered == Smalls(IDS - 1)
    ensures l.mux == OneProtocol(Queues([], [], [SecondHalf()]), 1)
    ensures MuxOk(l.mux) && l.mux.protocols != [] && Send(l) == None
  {
    run, l := SmallsGoPast(IDS - 1);
    var l1, l2 := LastIsSwallowed(l);
    run := TwoMore(run, l, l1, l2);
    l := l2;
    SecondIsLost(l);
  }
}

/**
 * Frames of many packets on one wire, in any order that keeps the frames of each protocol and
 * sequence id in order: every packet arrives exactly once and no buffer is left over.
 */
module Interleaving {
  import opened Options
  import opened Rlp
  import opened Frames
  import opened FrameCodec
  import opened Reassembly
  import Transfer

  // ---------- One stream: the frames of one protocol and sequence id ----------

  /** What is being reassembled under a protocol and a sequence id. */
  function SlotOf(bufs: Buffers, pid: nat, sid: nat): Option<Partial> {
    if pid in bufs && sid in bufs[pid] then Some(bufs[pid][sid]) else None
  }

  datatype StreamStep = Unexpected | Moved(slot: Option<Partial>, packet: Option<Packet>)

  /** A whole frame is a packet, a first frame opens one, a continuation extends or completes it. */
  function StreamNext(slot: Option<Partial>, f: Frame): StreamStep {
    match slot
    case None =>
      if f.continuation then Unexpected
      else if f.total == None then Moved(None, Some(Packet(f.pid, f.cmd, f.payload)))
      else if f.total.value <= BodySize(f) then Unexpected
      else Moved(Some(Partial(f.cmd, f.payload, f.total.value - |EncodedCmd(f)|)), None)
    case Some(partial) =>
      var payload := partial.payload + f.payload;
      if !f.continuation || f.total.Some? || |payload| > partial.total then Unexpected
      else if |payload| == partial.total then Moved(None, Some(Packet(f.pid, partial.cmd, payload)))
      else Moved(Some(partial.(payload := payload)), None)
  }

  /** The packets the frames of a stream complete; None when they do not close. */
  function StreamRun(slot: Option<Partial>, fs: seq<Frame>): Option<seq<Packet>>
    decreases |fs|
  {
    if fs == [] then if slot == None then Some([]) else None
    else
      match StreamNext(slot, fs[0])
      case Unexpected => None
      case Moved(slot', packet) =>
        match StreamRun(slot', fs[1..])
        case None => None
        case Some(ps) => Some(if packet.Some? then [packet.value] + ps else ps)
  }

  function OfStream(fs: seq<Frame>, pid: nat, sid: nat): seq<Frame> {
    if fs == [] then []
    else if fs[0].pid == pid && fs[0].sid == sid then [fs[0]] + OfStream(fs[1..], pid, sid)
    else OfStream(fs[1..], pid, sid)
  }

  // ---------- Receiving frames of many streams ----------

  /** A completed packet with the stream it came through. */
  datatype Delivery = Delivery(pid: nat, sid: nat, packet: Packet)

  function DeliveredTo(ds: seq<Delivery>, pid: nat, sid: nat): seq<Packet> {
    if ds == [] then []
    else if ds[0].pid == pid && ds[0].sid == sid then [ds[0].packet] + DeliveredTo(ds[1..], pid, sid)
    else DeliveredTo(ds[1..], pid, sid)
  }

  function DeliveryOf(f: Frame, packet: Option<Packet>): seq<Delivery> {
    if packet.Some? then [Delivery(f.pid, f.sid, packet.value)] else []
  }

  datatype Deliveries = Lost | Deliveries(ds: seq<Delivery>, bufs: Buffers)

  /** Frames received one after the other, with the stream of every packet they complete. */
  function Deliver(bufs: Buffers, fs: seq<Frame>): Deliveries
    decreases |fs|
  {
    if fs == [] then Deliveries([], bufs)
    else
      match Reassemble(bufs, ParsedFrame(fs[0]))
      case Fault => Lost
      case Done(bufs', packet) =>
        match Deliver(bufs', fs[1..])
        case Lost => Lost
        case Deliveries(ds, bufs'') => Deliveries(DeliveryOf(fs[0], packet) + ds, bufs'')
  }

  /** One frame moves the slot of its own stream, and no other. */
  lemma FrameMovesOwnSlot(bufs: Buffers, f: Frame)
    requires f.pid in bufs && f.cmd < 256 && StreamNext(SlotOf(bufs, f.pid, f.sid), f).Moved?
    ensures Reassemble(bufs, ParsedFrame(f)).Done?
    ensures var step, o := StreamNext(SlotOf(bufs, f.pid, f.sid), f), Reassemble(bufs, ParsedFrame(f));
            && o.packet == step.packet && o.bufs.Keys == bufs.Keys
            && forall pid, sid :: SlotOf(o.bufs, pid, sid) == if pid == f.pid && sid == f.sid then step.slot else SlotOf(bufs, pid, sid)
  {
    var slot := SlotOf(bufs, f.pid, f.sid);
    if slot == None {
      CmdRoundTrip(f);
    } else {
      assert EncodedCmd(f) + f.payload == f.payload;
    }
  }

  lemma FirstFrames(f: Frame, rest: seq<Frame>, pid: nat, sid: nat)
    ensures OfStream([f] + rest, pid, sid) == (if f.pid == pid && f.sid == sid then [f] else []) + OfStream(rest, pid, sid)
  {
    assert ([f] + rest)[1..] == rest;
  }

  lemma FirstDeliveries(f: Frame, packet: Option<Packet>, ds: seq<Delivery>, pid: nat, sid: nat)
    ensures DeliveredTo(DeliveryOf(f, packet) + ds, pid, sid)
         == (if f.pid == pid && f.sid == sid && packet.Some? then [packet.value] else []) + DeliveredTo(ds, pid, sid)
  {
    if packet.Some? {
      assert (DeliveryOf(f, packet) + ds)[1..] == ds;
    } else {
      assert DeliveryOf(f, packet) + ds == ds;
    }
  }

  /** The frames of a stream close, if there are any. */
  ghost predicate Closes(slot: Option<Partial>, fs: seq<Frame>) {
    fs == [] || StreamRun(slot, fs).Some?
  }

  function Completed(slot: Option<Partial>, fs: seq<Frame>): seq<Packet> {
    if fs == [] || StreamRun(slot, fs).None? then [] else StreamRun(slot, fs).value
  }

  /** The slot of a stream once its frames have been received. */
  function Left(slot: Option<Partial>, fs: seq<Frame>): Option<Partial> {
    if fs == [] then slot else None
  }

  /** The first frame of a stream that closes. */
  lemma FirstOfStream(slot: Option<Partial>, f: Frame, rest: seq<Frame>)
    requires Closes(slot, [f] + rest)
    ensures StreamNext(slot, f).Moved?
    ensures var step := StreamNext(slot, f);
            && Closes(step.slot, rest) && Left(step.slot, rest) == None
            && Completed(slot, [f] + rest) == (if step.packet.Some? then [step.packet.value] else []) + Completed(step.slot, rest)
  {
    assert ([f] + rest)[1..] == rest;
    var step := StreamNext(slot, f);
    assert StreamRun(step.slot, rest).Some?;
    if rest == [] {
      assert StreamRun(step.slot, rest) == Some([]);
    }
  }

  /**
   * If the frames of every stream, taken by themselves, close, then frames of all streams in any
   * order are received without a fault, each stream delivers exactly its packets, in order, and no
   * slot of these streams is left in use; slots of other streams stay as they are.
   */
  lemma {:induction false} StreamsAreIndependent(bufs: Buffers, fs: seq<Frame>)
    requires forall f :: f in fs ==> f.pid in bufs && f.cmd < 256
    requires forall pid, sid :: Closes(SlotOf(bufs, pid, sid), OfStream(fs, pid, sid))
    ensures Deliver(bufs, fs).Deliveries? && Deliver(bufs, fs).bufs.Keys == bufs.Keys
    ensures forall pid, sid :: SlotOf(Deliver(bufs, fs).bufs, pid, sid) == Left(SlotOf(bufs, pid, sid), OfStream(fs, pid, sid))
    ensures forall pid, sid :: DeliveredTo(Deliver(bufs, fs).ds, pid, sid) == Completed(SlotOf(bufs, pid, sid), OfStream(fs, pid, sid))
    decreases |fs|
  {
    if fs != [] {
      var f, tail := fs[0], fs[1..];
      assert fs == [f] + tail;
      FirstFrames(f, tail, f.pid, f.sid);
      FirstOfStream(SlotOf(bufs, f.pid, f.sid), f, OfStream(tail, f.pid, f.sid));
      FrameMovesOwnSlot(bufs, f);
      var o := Reassemble(bufs, ParsedFrame(f));
      forall pid, sid ensures Closes(SlotOf(o.bufs, pid, sid), OfStream(tail, pid, sid)) {
        OneFrameLater(bufs, f, tail, o.bufs, o.packet, [], pid, sid);
      }
      StreamsAreIndependent(o.bufs, tail);
      var rest := Deliver(o.bufs, tail);
      forall pid, sid
        ensures SlotOf(rest.bufs, pid, sid) == Left(SlotOf(bufs, pid, sid), OfStream(fs, pid, sid))
        ensures DeliveredTo(DeliveryOf(f, o.packet) + rest.ds, pid, sid) == Completed(SlotOf(bufs, pid, sid), OfStream(fs, pid, sid))
      {
        OneFrameLater(bufs, f, tail, o.bufs, o.packet, rest.ds, pid, sid);
      }
    }
  }

  /** Any stream before and after one frame, of this stream or of another. */
  lemma OneFrameLater(bufs: Buffers, f: Frame, tail: seq<Frame>, bufs': Buffers, packet: Option<Packet>, ds: seq<Delivery>, pid: nat, sid: nat)
    requires Closes(SlotOf(bufs, pid, sid), OfStream([f] + tail, pid, sid))
    requires StreamNext(SlotOf(bufs, f.pid, f.sid), f).Moved? && packet == StreamNext(SlotOf(bufs, f.pid, f.sid), f).packet
    requires SlotOf(bufs', pid, sid) == if pid == f.pid && sid == f.sid
                                        then StreamNext(SlotOf(bufs, pid, sid), f).slot else SlotOf(bufs, pid, sid)
    ensures var slot, later := SlotOf(bufs, pid, sid), SlotOf(bufs', pid, sid);
            && Closes(later, OfStream(tail, pid, sid))
            && Left(later, OfStream(tail, pid, sid)) == Left(slot, OfStream([f] + tail, pid, sid))
            && (DeliveredTo(ds, pid, sid) == Completed(later, OfStream(tail, pid, sid)) ==>
                  DeliveredTo(DeliveryOf(f, packet) + ds, pid, sid) == Completed(slot, OfStream([f] + tail, pid, sid)))
  {
    FirstFrames(f, tail, pid, sid);
    FirstDeliveries(f, packet, ds, pid, sid);
    if pid == f.pid && sid == f.sid {
      FirstOfStream(SlotOf(bufs, pid, sid), f, OfStream(tail, pid, sid));
    } else {
      assert [] + OfStream(tail, pid, sid) == OfStream(tail, pid, sid);
      assert [] + DeliveredTo(ds, pid, sid) == DeliveredTo(ds, pid, sid);
    }
  }

  // ---------- Packets and their frames ----------

  /** A packet that was cut, with the sequence id and the frames it was given. */
  datatype Sent = Sent(packet: Packet, sid: nat, frames: seq<Frame>)

  ghost predicate SentOk(s: Sent) {
    s.packet.cmd < 256 && FramesOf(s.packet, s.sid, s.frames)
  }

  predicate Through(s: Sent, pid: nat, sid: nat) {
    s.packet.pid == pid && s.sid == sid
  }

  /** The frames of a stream, packet after packet. */
  function FramesOfStream(sents: seq<Sent>, pid: nat, sid: nat): seq<Frame> {
    if sents == [] then []
    else (if Through(sents[0], pid, sid) then sents[0].frames else []) + FramesOfStream(sents[1..], pid, sid)
  }

  function SentDeliveries(sents: seq<Sent>): seq<Delivery> {
    seq(|sents|, i requires 0 <= i < |sents| => Delivery(sents[i].packet.pid, sents[i].sid, sents[i].packet))
  }

  lemma {:induction false} StreamRunConcat(slot: Option<Partial>, a: seq<Frame>, b: seq<Frame>)
    requires StreamRun(slot, a).Some? && StreamRun(None, b).Some?
    ensures StreamRun(slot, a + b) == Some(StreamRun(slot, a).value + StreamRun(None, b).value)
    decreases |a|
  {
    if a == [] {
      assert a + b == b;
      assert [] + StreamRun(None, b).value == StreamRun(None, b).value;
    } else {
      assert (a + b)[0] == a[0] && (a + b)[1..] == a[1..] + b;
      var step := StreamNext(slot, a[0]);
      StreamRunConcat(step.slot, a[1..], b);
      if step.packet.Some? {
        Transfer.Regroup([step.packet.value], StreamRun(step.slot, a[1..]).value, StreamRun(None, b).value);
      }
    }
  }

  lemma {:induction false} ContinuationsClose(partial: Partial, fs: seq<Frame>, pid: nat, sid: nat)
    requires fs != [] && AreContinuations(fs, pid, partial.cmd, sid)
    requires |partial.payload + JoinPayloads(fs)| == partial.total
    ensures StreamRun(Some(partial), fs) == Some([Packet(pid, partial.cmd, partial.payload + JoinPayloads(fs))])
    decreases |fs|
  {
    var f := fs[0];
    assert f in fs;
    var payload := partial.payload + f.payload;
    assert partial.payload + JoinPayloads(fs) == payload + JoinPayloads(fs[1..]);
    if fs[1..] != [] {
      assert fs[1] in fs && JoinPayloads(fs[1..]) != [];
      assert StreamNext(Some(partial), f) == Moved(Some(partial.(payload := payload)), None);
      ContinuationsClose(partial.(payload := payload), fs[1..], pid, sid);
    } else {
      assert partial.payload + JoinPayloads(fs) == payload;
      assert StreamNext(Some(partial), f) == Moved(None, Some(Packet(pid, partial.cmd, payload)));
      assert [Packet(pid, partial.cmd, payload)] + [] == [Packet(pid, partial.cmd, payload)];
    }
  }

  /** The frames of a packet, whole or cut, complete the packet. */
  lemma FramesClose(p: Packet, sid: nat, fs: seq<Frame>)
    requires p.cmd < 256 && FramesOf(p, sid, fs)
    ensures StreamRun(None, fs) == Some([p])
  {
    var first := fs[0];
    if |fs| == 1 {
      assert fs[1..] == [];
      assert StreamNext(None, first) == Moved(None, Some(p));
      assert [p] + [] == [p];
    } else {
      assert EncodedCmd(first) == EncodedCmd(WholeFrame(p, sid));
      assert p.payload == first.payload + JoinPayloads(fs[1..]);
      assert fs[1] in fs[1..] && JoinPayloads(fs[1..]) != [];
      var partial := Partial(p.cmd, first.payload, |p.payload|);
      assert StreamNext(None, first) == Moved(Some(partial), None);
      ContinuationsClose(partial, fs[1..], p.pid, sid);
    }
  }

  lemma {:induction false} StreamCloses(sents: seq<Sent>, pid: nat, sid: nat)
    requires forall s :: s in sents ==> SentOk(s)
    ensures StreamRun(None, FramesOfStream(sents, pid, sid)) == Some(DeliveredTo(SentDeliveries(sents), pid, sid))
    decreases |sents|
  {
    if sents != [] {
      var s, rest := sents[0], sents[1..];
      assert s in sents;
      StreamCloses(rest, pid, sid);
      assert SentDeliveries(sents)[1..] == SentDeliveries(rest);
      if Through(s, pid, sid) {
        FramesClose(s.packet, s.sid, s.frames);
        StreamRunConcat(None, s.frames, FramesOfStream(rest, pid, sid));
      } else {
        assert [] + FramesOfStream(rest, pid, sid) == FramesOfStream(rest, pid, sid);
      }
    }
  }

  // ---------- Exactly once ----------

  function PacketsIn(ds: seq<Delivery>): seq<Packet> {
    seq(|ds|, i requires 0 <= i < |ds| => ds[i].packet)
  }

  /** The packets that reach the protocols: those with payload. */
  function Reaching(ds: seq<Delivery>): seq<Packet> {
    Transfer.HasPayload(PacketsIn(ds))
  }

  lemma ReachingConcat(a: seq<Delivery>, b: seq<Delivery>)
    ensures Reaching(a + b) == Reaching(a) + Reaching(b)
  {
    assert PacketsIn(a + b) == PacketsIn(a) + PacketsIn(b);
    Transfer.HasPayloadConcat(PacketsIn(a), PacketsIn(b));
  }

  lemma {:induction false} CountInStream(ds: seq<Delivery>, d: Delivery)
    ensures multiset(ds)[d] == multiset(DeliveredTo(ds, d.pid, d.sid))[d.packet]
    decreases |ds|
  {
    if ds != [] {
      CountInStream(ds[1..], d);
      assert ds == [ds[0]] + ds[1..];
      assert multiset(ds)[d] == (if ds[0] == d then 1 else 0) + multiset(ds[1..])[d];
      var rest := DeliveredTo(ds[1..], d.pid, d.sid);
      assert multiset([ds[0].packet] + rest)[d.packet] == (if ds[0].packet == d.packet then 1 else 0) + multiset(rest)[d.packet];
    }
  }

  /** Equal deliveries in each stream are equal deliveries altogether. */
  lemma SameStreamsSameDeliveries(a: seq<Delivery>, b: seq<Delivery>)
    requires forall pid, sid :: DeliveredTo(a, pid, sid) == DeliveredTo(b, pid, sid)
    ensures multiset(a) == multiset(b)
  {
    forall d ensures multiset(a)[d] == multiset(b)[d] {
      CountInStream(a, d);
      CountInStream(b, d);
    }
  }

  lemma WithoutOne(d: Delivery, rest: seq<Delivery>, before: seq<Delivery>, after: seq<Delivery>)
    requires multiset([d] + rest) == multiset(before + ([d] + after))
    ensures multiset(rest) == multiset(before + after)
  {
    assert multiset([d] + rest) == multiset([d]) + multiset(rest);
    assert multiset(before + ([d] + after)) == multiset(before) + (multiset([d]) + multiset(after));
    assert multiset(before + after) == multiset(before) + multiset(after);
    assert multiset(rest) == multiset([d] + rest) - multiset([d]);
    assert multiset(before + after) == multiset(before + ([d] + after)) - multiset([d]);
  }

  lemma ReachingMiddle(before: seq<Delivery>, d: Delivery, after: seq<Delivery>)
    ensures multiset(Reaching(before + ([d] + after))) == multiset(Reaching([d])) + multiset(Reaching(before + after))
  {
    ReachingConcat(before, [d] + after);
    ReachingConcat([d], after);
    ReachingConcat(before, after);
  }

  lemma {:induction false} SameDeliveriesSamePackets(a: seq<Delivery>, b: seq<Delivery>)
    requires multiset(a) == multiset(b)
    ensures multiset(Reaching(a)) == multiset(Reaching(b))
    decreases |a|
  {
    if a == [] {
      assert |b| == |multiset(b)| == 0;
    } else {
      var d, rest := a[0], a[1..];
      assert a == [d] + rest;
      var before, after := Around(b, d, a);
      WithoutOne(d, rest, before, after);
      SameDeliveriesSamePackets(rest, before + after);
      ReachingMiddle(before, d, after);
      ReachingMiddle([], d, rest);
      assert [] + ([d] + rest) == a && [] + rest == rest;
    }
  }

  lemma Around(b: seq<Delivery>, d: Delivery, a: seq<Delivery>) returns (before: seq<Delivery>, after: seq<Delivery>)
    requires multiset(a) == multiset(b) && d in a
    ensures b == before + ([d] + after)
  {
    assert d in multiset(a);
    assert d in multiset(b);
    var j :| 0 <= j < |b| && b[j] == d;
    before, after := b[..j], b[j + 1..];
  }

  /** Receiving with streams noted is receiving. */
  lemma {:induction false} DeliverIsReceive(bufs: Buffers, fs: seq<Frame>)
    requires Deliver(bufs, fs).Deliveries?
    ensures ReceiveAll(bufs, fs) == Received(Reaching(Deliver(bufs, fs).ds), Deliver(bufs, fs).bufs)
    decreases |fs|
  {
    if fs != [] {
      var o := Reassemble(bufs, ParsedFrame(fs[0]));
      DeliverIsReceive(o.bufs, fs[1..]);
      var first, rest := DeliveryOf(fs[0], o.packet), Deliver(o.bufs, fs[1..]).ds;
      ReachingConcat(first, rest);
      ReachingOne(fs[0], o.packet);
    }
  }

  lemma ReachingOne(f: Frame, packet: Option<Packet>)
    ensures Reaching(DeliveryOf(f, packet)) == Emitted(packet)
  {
    if packet.Some? {
      var ps := [packet.value];
      assert PacketsIn(DeliveryOf(f, packet)) == ps;
      assert ps[1..] == [] && Transfer.HasPayload(ps[1..]) == [];
    } else {
      assert PacketsIn(DeliveryOf(f, packet)) == [];
    }
  }

  lemma {:induction false} InOwnStream(fs: seq<Frame>, f: Frame)
    requires f in fs
    ensures f in OfStream(fs, f.pid, f.sid)
    decreases |fs|
  {
    if fs[0] != f {
      InOwnStream(fs[1..], f);
    }
  }

  lemma {:induction false} OfSomePacket(sents: seq<Sent>, pid: nat, sid: nat, f: Frame)
    requires f in FramesOfStream(sents, pid, sid) && forall s :: s in sents ==> SentOk(s)
    ensures exists s :: s in sents && s.packet.pid == pid && f.cmd == s.packet.cmd < 256
    decreases |sents|
  {
    var s := sents[0];
    assert s in sents;
    if Through(s, pid, sid) && f in s.frames {
      assert f == s.frames[0] || f in s.frames[1..];
    } else {
      OfSomePacket(sents[1..], pid, sid, f);
    }
  }

  /** The frames on the wire are those of the packets, each stream in order; streams are free or not touched. */
  ghost predicate Carries(bufs: Buffers, sents: seq<Sent>, fs: seq<Frame>) {
    && (forall s :: s in sents ==> SentOk(s) && s.packet.pid in bufs && SlotOf(bufs, s.packet.pid, s.sid) == None)
    && (forall pid, sid :: OfStream(fs, pid, sid) == FramesOfStream(sents, pid, sid))
  }

  lemma {:induction false} NoFramesOfStream(sents: seq<Sent>, pid: nat, sid: nat)
    requires forall s :: s in sents ==> !Through(s, pid, sid)
    ensures FramesOfStream(sents, pid, sid) == [] && DeliveredTo(SentDeliveries(sents), pid, sid) == []
    decreases |sents|
  {
    if sents != [] {
      assert sents[0] in sents;
      NoFramesOfStream(sents[1..], pid, sid);
      assert SentDeliveries(sents)[1..] == SentDeliveries(sents[1..]);
    }
  }

  lemma CarriedStreamCloses(bufs: Buffers, sents: seq<Sent>, fs: seq<Frame>, pid: nat, sid: nat)
    requires Carries(bufs, sents, fs)
    ensures var slot, stream := SlotOf(bufs, pid, sid), OfStream(fs, pid, sid);
            && Closes(slot, stream) && Left(slot, stream) == slot
            && Completed(slot, stream) == DeliveredTo(SentDeliveries(sents), pid, sid)
  {
    if s :| s in sents && Through(s, pid, sid) {
      StreamCloses(sents, pid, sid);
    } else {
      NoFramesOfStream(sents, pid, sid);
    }
  }

  /** Each stream delivers exactly the packets that were sent through it, in order. */
  lemma EachStreamInOrder(bufs: Buffers, sents: seq<Sent>, fs: seq<Frame>)
    requires Carries(bufs, sents, fs)
    ensures Deliver(bufs, fs).Deliveries? && Deliver(bufs, fs).bufs == bufs
    ensures forall pid, sid :: DeliveredTo(Deliver(bufs, fs).ds, pid, sid) == DeliveredTo(SentDeliveries(sents), pid, sid)
  {
    forall f | f in fs ensures f.pid in bufs && f.cmd < 256 {
      InOwnStream(fs, f);
      OfSomePacket(sents, f.pid, f.sid, f);
    }
    forall pid, sid
      ensures Closes(SlotOf(bufs, pid, sid), OfStream(fs, pid, sid))
      ensures Left(SlotOf(bufs, pid, sid), OfStream(fs, pid, sid)) == SlotOf(bufs, pid, sid)
      ensures Completed(SlotOf(bufs, pid, sid), OfStream(fs, pid, sid)) == DeliveredTo(SentDeliveries(sents), pid, sid)
    {
      CarriedStreamCloses(bufs, sents, fs, pid, sid);
    }
    StreamsAreIndependent(bufs, fs);
    SameSlots(bufs, Deliver(bufs, fs).bufs);
  }

  lemma SameSlots(bufs: Buffers, bufs': Buffers)
    requires bufs'.Keys == bufs.Keys && forall pid, sid :: SlotOf(bufs', pid, sid) == SlotOf(bufs, pid, sid)
    ensures bufs' == bufs
  {
    forall pid | pid in bufs ensures bufs'[pid] == bufs[pid] {
      forall sid ensures sid in bufs'[pid] <==> sid in bufs[pid]
                 ensures sid in bufs[pid] ==> bufs'[pid][sid] == bufs[pid][sid] {
        assert SlotOf(bufs', pid, sid) == SlotOf(bufs, pid, sid);
      }
    }
  }

  /**
   * Frames of any packets, in any order on the wire that keeps the frames of each protocol and
   * sequence id in order, decode without a fault and with nothing left over; every packet with
   * payload arrives exactly once, and all buffers are as they were.
   */
  lemma InterleavingRoundTrip(bufs: Buffers, sents: seq<Sent>, fs: seq<Frame>)
    requires Carries(bufs, sents, fs) && forall f :: f in fs ==> Encodes(f)
    ensures var d := Decode(bufs, WireBytes(fs));
            && !d.fault && d.rest == [] && d.bufs == bufs
            && multiset(d.packets) == multiset(Reaching(SentDeliveries(sents)))
  {
    EachStreamInOrder(bufs, sents, fs);
    var r := Deliver(bufs, fs);
    SameStreamsSameDeliveries(r.ds, SentDeliveries(sents));
    SameDeliveriesSamePackets(r.ds, SentDeliveries(sents));
    DeliverIsReceive(bufs, fs);
    DecodingIsReceiving(bufs, fs);
  }

  // ---------- One packet ----------

  lemma {:induction false} OneStream(fs: seq<Frame>, p: nat, s: nat, pid: nat, sid: nat)
    requires forall f :: f in fs ==> f.pid == p && f.sid == s
    ensures OfStream(fs, pid, sid) == if pid == p && sid == s then fs else []
    decreases |fs|
  {
    if fs != [] {
      assert fs[0] in fs;
      OneStream(fs[1..], p, s, pid, sid);
      assert [fs[0]] + fs[1..] == fs;
    }
  }

  lemma OwnFrames(p: Packet, sid: nat, fs: seq<Frame>)
    requires FramesOf(p, sid, fs)
    ensures forall f :: f in fs ==> f.pid == p.pid && f.sid == sid
  {
    forall f | f in fs ensures f.pid == p.pid && f.sid == sid {
      assert f == fs[0] || f in fs[1..];
    }
  }

  lemma OneSentCarried(bufs: Buffers, p: Packet, sid: nat, fs: seq<Frame>)
    requires p.cmd < 256 && FramesOf(p, sid, fs) && p.pid in bufs && SlotOf(bufs, p.pid, sid) == None
    ensures Carries(bufs, [Sent(p, sid, fs)], fs)
  {
    OwnFrames(p, sid, fs);
    var sents := [Sent(p, sid, fs)];
    forall pid', sid' ensures OfStream(fs, pid', sid') == FramesOfStream(sents, pid', sid') {
      OneStream(fs, p.pid, sid, pid', sid');
      assert sents[1..] == [];
    }
  }

  lemma OnePacket(ps: seq<Packet>, p: Packet)
    ensures multiset(ps) == multiset(Emitted(Some(p))) ==> ps == Emitted(Some(p))
  {
    if multiset(ps) == multiset(Emitted(Some(p))) {
      assert |ps| == |multiset(ps)| == |Emitted(Some(p))|;
      if |ps| == 1 {
        assert ps[0] in multiset(ps);
      }
    }
  }

  /** The frames of one packet bring it to its protocol if and only if it has payload. */
  lemma ArrivesIffPayload(bufs: Buffers, p: Packet, sid: nat, fs: seq<Frame>)
    requires p.cmd < 256 && FramesOf(p, sid, fs) && p.pid in bufs && SlotOf(bufs, p.pid, sid) == None
    requires forall f :: f in fs ==> Encodes(f)
    ensures Decode(bufs, WireBytes(fs)).packets == [p] <==> p.payload != []
    ensures Decode(bufs, WireBytes(fs)).packets == [] <==> p.payload == []
  {
    OneSentCarried(bufs, p, sid, fs);
    var sents := [Sent(p, sid, fs)];
    InterleavingRoundTrip(bufs, sents, fs);
    ReachingOne(Frame(p.pid, p.cmd, [], sid, false, None), Some(p));
    assert SentDeliveries(sents) == DeliveryOf(Frame(p.pid, p.cmd, [], sid, false, None), Some(p));
    OnePacket(Decode(bufs, WireBytes(fs)).packets, p);
  }
}

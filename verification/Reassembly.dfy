/** Reassembling the frames of one protocol's chunked queue, and frames on the wire as a whole. */
module Reassembly {
  import opened Options
  import opened Rlp
  import opened Frames
  import opened FrameCodec

  /** The packet of the chunked queue that is partly transferred: its sequence id and what has come in. */
  datatype Open = Open(sid: nat, partial: Partial)

  /** One frame of the chunked queue: a first frame opens a packet, a continuation extends it. */
  datatype ChunkStep = BadFrame | Next(open: Option<Open>, packet: Option<Packet>)

  function ChunkNext(open: Option<Open>, f: Frame): ChunkStep {
    match open
    case None =>
      if f.continuation || f.total == None || f.total.value <= BodySize(f) then BadFrame
      else Next(Some(Open(f.sid, Partial(f.cmd, f.payload, f.total.value - |EncodedCmd(f)|))), None)
    case Some(o) =>
      var payload := o.partial.payload + f.payload;
      if !f.continuation || f.total.Some? || f.sid != o.sid || |payload| > o.partial.total then BadFrame
      else if |payload| == o.partial.total then Next(None, Some(Packet(f.pid, o.partial.cmd, payload)))
      else Next(Some(Open(o.sid, o.partial.(payload := payload))), None)
  }

  /** The packets that the frames of a chunked queue complete; None when they do not close. */
  function ChunkRun(open: Option<Open>, fs: seq<Frame>): Option<seq<Packet>>
    decreases |fs|
  {
    if fs == [] then if open == None then Some([]) else None
    else
      match ChunkNext(open, fs[0])
      case BadFrame => None
      case Next(open', packet) =>
        match ChunkRun(open', fs[1..])
        case None => None
        case Some(ps) => Some(if packet.Some? then [packet.value] + ps else ps)
  }

  /** The continuation frames of a packet complete it, and nothing before the last one does. */
  lemma {:induction false} ContinuationsComplete(o: Open, fs: seq<Frame>, pid: nat)
    requires fs != [] && AreContinuations(fs, pid, o.partial.cmd, o.sid)
    requires |o.partial.payload + JoinPayloads(fs)| == o.partial.total
    ensures ChunkRun(Some(o), fs) == Some([Packet(pid, o.partial.cmd, o.partial.payload + JoinPayloads(fs))])
    decreases |fs|
  {
    var f := fs[0];
    assert f in fs;
    var payload := o.partial.payload + f.payload;
    assert o.partial.payload + JoinPayloads(fs) == payload + JoinPayloads(fs[1..]);
    if fs[1..] != [] {
      assert fs[1] in fs && JoinPayloads(fs[1..]) != [];
      var o' := Open(o.sid, o.partial.(payload := payload));
      assert ChunkNext(Some(o), f) == Next(Some(o'), None);
      ContinuationsComplete(o', fs[1..], pid);
    } else {
      assert o.partial.payload + JoinPayloads(fs) == payload;
      assert ChunkNext(Some(o), f) == Next(None, Some(Packet(pid, o.partial.cmd, payload)));
      assert [Packet(pid, o.partial.cmd, payload)] + [] == [Packet(pid, o.partial.cmd, payload)];
    }
  }

  /** The frames of a packet that was cut reassemble to that packet. */
  lemma CutPacketReassembles(p: Packet, sid: nat, fs: seq<Frame>)
    requires p.cmd < 256 && FramesOf(p, sid, fs) && |fs| > 1
    ensures ChunkRun(None, fs) == Some([p])
  {
    var first := fs[0];
    assert EncodedCmd(first) == EncodedCmd(WholeFrame(p, sid));
    assert p.payload == first.payload + JoinPayloads(fs[1..]);
    assert fs[1] in fs[1..];
    assert JoinPayloads(fs[1..]) != [];
    var o := Open(sid, Partial(p.cmd, first.payload, |p.payload|));
    assert ChunkNext(None, first) == Next(Some(o), None);
    ContinuationsComplete(o, fs[1..], p.pid);
    assert Packet(p.pid, p.cmd, p.payload) == p;
  }

  /** Frames queued behind a queue that closes start from a closed state. */
  lemma {:induction false} ChunkRunConcat(open: Option<Open>, a: seq<Frame>, b: seq<Frame>)
    requires ChunkRun(open, a).Some? && ChunkRun(None, b).Some?
    ensures ChunkRun(open, a + b) == Some(ChunkRun(open, a).value + ChunkRun(None, b).value)
    decreases |a|
  {
    if a == [] {
      assert a + b == b;
      assert [] + ChunkRun(None, b).value == ChunkRun(None, b).value;
    } else {
      assert (a + b)[0] == a[0] && (a + b)[1..] == a[1..] + b;
      var step := ChunkNext(open, a[0]);
      ChunkRunConcat(step.open, a[1..], b);
      if step.packet.Some? {
        var first, rest, more := [step.packet.value], ChunkRun(step.open, a[1..]).value, ChunkRun(None, b).value;
        assert first + (rest + more) == (first + rest) + more;
      }
    }
  }

  // ---------- Frames received one after the other ----------

  datatype Received = Broken | Received(packets: seq<Packet>, bufs: Buffers)

  function ReceiveAll(bufs: Buffers, fs: seq<Frame>): Received {
    if fs == [] then Received([], bufs)
    else
      match Reassemble(bufs, ParsedFrame(fs[0]))
      case Fault => Broken
      case Done(bufs', packet) =>
        match ReceiveAll(bufs', fs[1..])
        case Broken => Broken
        case Received(ps, bufs'') => Received(Emitted(packet) + ps, bufs'')
  }

  function WireBytes(fs: seq<Frame>): seq<Byte>
    requires forall f :: f in fs ==> Encodes(f)
  {
    if fs == [] then [] else FrameBytes(fs[0]) + WireBytes(fs[1..])
  }

  /** Decoding the bytes of some frames is receiving these frames: no bytes are left over. */
  lemma {:induction false} DecodingIsReceiving(bufs: Buffers, fs: seq<Frame>)
    requires forall f :: f in fs ==> Encodes(f)
    requires ReceiveAll(bufs, fs).Received?
    ensures var r := ReceiveAll(bufs, fs); Decode(bufs, WireBytes(fs)) == Decoded(r.packets, r.bufs, [], false)
    decreases |fs|
  {
    if fs != [] {
      var f, rest := fs[0], WireBytes(fs[1..]);
      FrameRoundTrip(f, rest);
      var o := Reassemble(bufs, ParsedFrame(f));
      DecodingIsReceiving(o.bufs, fs[1..]);
      DecodeStep(bufs, FrameBytes(f) + rest, o);
      assert (FrameBytes(f) + rest)[FrameSize(f)..] == rest;
    }
  }

  /** Reading the packet type back off the body of a frame that is not a continuation. */
  lemma CmdRoundTrip(f: Frame)
    requires f.cmd < 256 && !f.continuation
    ensures ConsumeInt(EncodedCmd(f) + f.payload) == Some((f.cmd, |EncodedCmd(f)|))
    ensures (EncodedCmd(f) + f.payload)[|EncodedCmd(f)|..] == f.payload
  {
    IntBytesLength(f.cmd, 1);
    IntRoundTrip(f.cmd, f.payload);
  }

  /** What the receiver holds for a protocol whose chunked queue is in state `open`. */
  function Slots(open: Option<Open>): map<nat, Partial> {
    match open
    case None => map[]
    case Some(o) => map[o.sid := o.partial]
  }

  /** A frame of the chunked queue moves the receiver's slot as `ChunkNext` says. */
  lemma ChunkFrameReceived(bufs: Buffers, open: Option<Open>, f: Frame)
    requires f.cmd < 256 && f.pid in bufs && bufs[f.pid] == Slots(open) && ChunkNext(open, f).Next?
    ensures var step := ChunkNext(open, f);
            Reassemble(bufs, ParsedFrame(f)) == Done(bufs[f.pid := Slots(step.open)], step.packet)
  {
    var step := ChunkNext(open, f);
    if open == None {
      CmdRoundTrip(f);
      var slots: map<nat, Partial> := bufs[f.pid][f.sid := step.open.value.partial];
      assert slots == Slots(step.open);
    } else {
      var o := open.value;
      assert EncodedCmd(f) + f.payload == f.payload;
      if step.open == None {
        assert bufs[f.pid] - {f.sid} == Slots(None);
      } else {
        var slots: map<nat, Partial> := bufs[f.pid][f.sid := step.open.value.partial];
        assert slots == Slots(step.open);
      }
    }
  }

  /** A whole frame whose sequence id is not in use for reassembly is delivered as its packet. */
  lemma WholeFrameReceived(bufs: Buffers, open: Option<Open>, f: Frame)
    requires f.cmd < 256 && f.pid in bufs && bufs[f.pid] == Slots(open)
    requires !f.continuation && f.total == None && (open.Some? ==> open.value.sid != f.sid)
    ensures Reassemble(bufs, ParsedFrame(f)) == Done(bufs, Some(Packet(f.pid, f.cmd, f.payload)))
  {
    CmdRoundTrip(f);
  }

  /** A whole frame is delivered as its packet, and changes no buffer, exactly when its sequence id is free. */
  lemma WholeFrameArrivesIff(bufs: Buffers, f: Frame)
    requires f.cmd < 256 && f.pid in bufs && !f.continuation && f.total == None
    ensures Reassemble(bufs, ParsedFrame(f)) == Done(bufs, Some(Packet(f.pid, f.cmd, f.payload)))
       <==> f.sid !in bufs[f.pid]
  {
    CmdRoundTrip(f);
    if f.sid in bufs[f.pid] {
      assert f.sid !in (bufs[f.pid] - {f.sid});
    }
  }

  /** The first frame of a cut packet opens a buffer exactly when its sequence id is free; else it is a fault. */
  lemma FirstFrameOpensIff(bufs: Buffers, f: Frame)
    requires f.cmd < 256 && f.pid in bufs && !f.continuation && f.total.Some? && f.total.value > BodySize(f)
    ensures if f.sid in bufs[f.pid] then Reassemble(bufs, ParsedFrame(f)) == Fault
            else
              var slots: map<nat, Partial> := bufs[f.pid][f.sid := Partial(f.cmd, f.payload, f.total.value - |EncodedCmd(f)|)];
              Reassemble(bufs, ParsedFrame(f)) == Done(bufs[f.pid := slots], None)
  {
    CmdRoundTrip(f);
  }
}

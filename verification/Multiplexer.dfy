/** The multiplexer as an object: queues to fill and drain, and a decoder to feed. */
module Multiplexers {
  import opened Options
  import opened Rlp
  import opened Frames
  import opened FrameCodec
  import opened Scheduler
  import opened MuxState
  import opened MuxDrain
  import opened MuxRules

  lemma {:induction false} FullVisit(b: Batch, lanes: seq<Lane>, window: nat)
    requires |b.taken| >= 2
    ensures Visit(b, lanes, window) == b
    decreases |lanes|
  {
    if lanes != [] {
      FullVisit(b, lanes[1..], window);
    }
  }

  lemma VisitStep(b: Batch, i: nat, window: nat)
    requires i < |LANES|
    ensures Visit(b, LANES[i..], window) == Visit(Take(b, LANES[i], window), LANES[i + 1..], window)
  {
    assert LANES[i..][0] == LANES[i] && LANES[i..][1..] == LANES[i + 1..];
  }

  lemma FramesInConcat(a: seq<Tagged>, b: seq<Tagged>)
    ensures FramesIn(a + b) == FramesIn(a) + FramesIn(b)
  {
  }

  function FramesOut(outs: seq<Out>): seq<Frame> {
    seq(|outs|, i requires 0 <= i < |outs| => outs[i].frame)
  }

  lemma {:induction false} FramesOutOuts(pid: nat, taken: seq<Tagged>, rest: seq<Out>)
    ensures FramesOut(Outs(pid, taken) + rest) == FramesIn(taken) + FramesOut(rest)
    decreases |taken|
  {
    if taken != [] {
      FramesOutOuts(pid, taken[1..], rest);
      var outs := Outs(pid, taken);
      assert outs + rest == [outs[0]] + (Outs(pid, taken[1..]) + rest);
      assert FramesOut(outs + rest) == [taken[0].frame] + FramesOut(Outs(pid, taken[1..]) + rest);
      assert FramesIn(taken) == [taken[0].frame] + FramesIn(taken[1..]);
    } else {
      assert Outs(pid, taken) + rest == rest;
    }
  }

  /** Having taken `taken`, draining goes on from `queues` and `size`. */
  ghost predicate DrainsOn(queues0: Queues, window: nat, taken: seq<Tagged>, queues: Queues, size: nat) {
    var d := DrainFrom(queues, size, window);
    Drain(queues0, window) == d.(taken := taken + d.taken)
  }

  /** Draining is one cycle, and then draining what it leaves. */
  lemma DrainByCycles(queues: Queues, size: nat, window: nat)
    requires size < window
    ensures var c := Cycle(queues, size, window);
            if c.taken == [] then c == Batch([], queues, size) && DrainFrom(queues, size, window) == c
            else var d := DrainFrom(c.queues, c.size, window); DrainFrom(queues, size, window) == d.(taken := c.taken + d.taken)
  {
  }

  lemma DrainsOnCycle(queues0: Queues, window: nat, taken: seq<Tagged>, queues: Queues, size: nat)
    requires DrainsOn(queues0, window, taken, queues, size) && size < window
    ensures var c := Cycle(queues, size, window);
            DrainsOn(queues0, window, taken + c.taken, c.queues, c.size)
            && (c.taken == [] ==> Drain(queues0, window) == c.(taken := taken))
  {
    DrainByCycles(queues, size, window);
    var c := Cycle(queues, size, window);
    assert taken + [] == taken;
    if c.taken != [] {
      AppendTaken(taken, c.taken, DrainFrom(c.queues, c.size, window).taken);
    }
  }

  lemma AppendTaken(a: seq<Tagged>, b: seq<Tagged>, c: seq<Tagged>)
    ensures a + (b + c) == (a + b) + c
  {
  }

  lemma DrainsOnEnd(queues0: Queues, window: nat, taken: seq<Tagged>, queues: Queues, size: nat)
    requires DrainsOn(queues0, window, taken, queues, size)
    requires size >= window || Drain(queues0, window).taken == taken
    ensures Drain(queues0, window).taken == taken && Drain(queues0, window).queues == queues
  {
    var d := DrainFrom(queues, size, window);
    if size < window {
      assert |taken + d.taken| == |taken| + |d.taken|;
      assert d.taken == [];
    }
    assert taken + [] == taken;
  }

  function ServedFrames(r: Served): seq<Frame> {
    match r
    case Nothing => []
    case Served(_, b) => FramesIn(b.taken)
  }

  function QueuesAfter(queues: map<nat, Queues>, r: Served): map<nat, Queues> {
    match r
    case Nothing => queues
    case Served(pid, b) => queues[pid := b.queues]
  }

  /** Queueing keeps the queues consistent, whether it succeeds or not. */
  lemma AddKeepsOk(m: Mux, p: Packet, prioritize: bool)
    requires MuxOk(m)
    ensures MuxOk(MuxState.AddPacket(m, p, prioritize).0)
  {
  }

  lemma RotationHasQueues(protocols: seq<nat>, queues: map<nat, Queues>, i: nat)
    requires i < |protocols| && forall p :: p in protocols ==> p in queues
    ensures forall p :: p in Rotation(protocols, i) ==> p in queues
  {
    RotationMembers(protocols, i);
  }

  /** The frames sent next: those of the first protocol behind the last one served that has any to send. */
  ghost function NextServed(protocols: seq<nat>, queues: map<nat, Queues>, last: nat): Served
    requires last in protocols && forall p :: p in protocols ==> p in queues
  {
    var i := NextIndex(protocols, last);
    RotationHasQueues(protocols, queues, i);
    FirstServed(Rotation(protocols, i), queues, SendWindow(protocols, queues))
  }

  lemma PopFramesIs(m: Mux) returns (r: Served)
    requires MuxOk(m) && m.protocols != []
    ensures r == NextServed(m.protocols, m.queues, m.last)
    ensures MuxState.PopFrames(m) == (Mux(m.protocols, QueuesAfter(m.queues, r), m.sids, m.protocols[NextIndex(m.protocols, m.last)]), r)
    ensures MuxOk(MuxState.PopFrames(m).0)
  {
    PopServesOne(m);
    RotationHasQueues(m.protocols, m.queues, NextIndex(m.protocols, m.last));
    r := NextServed(m.protocols, m.queues, m.last);
  }

  lemma FirstServedStep(rotation: seq<nat>, j: nat, queues: map<nat, Queues>, window: nat)
    requires j < |rotation| && forall p :: p in rotation ==> p in queues
    ensures var b := Drain(queues[rotation[j]], window);
            && (b.taken != [] ==> FirstServed(rotation[j..], queues, window) == Served(rotation[j], b) && FramesIn(b.taken) != [])
            && (b.taken == [] ==> FirstServed(rotation[j..], queues, window) == FirstServed(rotation[j + 1..], queues, window))
            && (b.taken == [] ==> queues[rotation[j] := b.queues] == queues && FramesIn(b.taken) == [])
  {
    assert rotation[j..][0] == rotation[j] && rotation[j..][1..] == rotation[j + 1..];
    DrainsIffHeadFits(queues[rotation[j]], window);
  }

  lemma RegroupFrames(a: seq<Frame>, b: seq<Frame>, c: seq<Frame>)
    ensures a + (b + c) == (a + b) + c
  {
  }

  /** Decoding one step: nothing complete, a frame at fault, or a frame and then the rest. */
  lemma {:induction false} DecodeCases(bufs: Buffers, buffer: seq<Byte>, r: Decoded)
    requires r == FrameCodec.Decode(bufs, buffer)
    ensures !HasFrame(buffer) ==> r == Decoded([], bufs, buffer, false)
    ensures HasFrame(buffer) ==>
              var f := ParseFrame(buffer);
              var o := if f.Some? then Reassemble(bufs, f.value) else Fault;
              if o.Fault? then r == Decoded([], bufs, buffer, true)
              else
                var rest := FrameCodec.Decode(o.bufs, buffer[RequiredLength(buffer)..]);
                var packets := if o.packet.Some? && |o.packet.value.payload| > 0 then [o.packet.value] + rest.packets else rest.packets;
                r == Decoded(packets, rest.bufs, rest.rest, rest.fault)
  {
    assert forall packets: seq<Packet> :: [] + packets == packets;
  }

  lemma PopAllStep(m: Mux)
    requires MuxOk(m) && m.protocols != []
    ensures var (m', r) := MuxState.PopFrames(m);
            && MuxOk(m') && m'.protocols == m.protocols
            && PopAll(m).0 == (if r.Served? then PopAll(m').0 else m')
            && FramesOut(PopAll(m).1) == ServedFrames(r) + (if r.Served? then FramesOut(PopAll(m').1) else [])
            && (r.Served? <==> ServedFrames(r) != [])
            && (r.Served? ==> Total(m.protocols, m'.queues) < Total(m.protocols, m.queues))
            && (r.Nothing? ==> PopAll(m).1 == [])
  {
    PopServesOne(m);
    var m', r := MuxState.PopFrames(m).0, MuxState.PopFrames(m).1;
    if r.Served? {
      FramesOutOuts(r.pid, r.batch.taken, PopAll(m').1);
    }
  }

  class Multiplexer {
    var protocols: seq<nat>
    var queues: map<nat, Queues>
    var sequenceId: map<nat, nat>
    var lastProtocol: nat
    var chunkedBuffers: Buffers
    var decodeBuffer: seq<Byte>
    var cachedHeader: seq<Byte>

    function State(): Mux
      reads this
    {
      Mux(protocols, queues, sequenceId, lastProtocol)
    }

    /** A cached header is the header at the front of the buffer. */
    ghost predicate Valid()
      reads this
    {
      && MuxOk(State())
      && (cachedHeader != [] ==> |decodeBuffer| >= PREFIX && cachedHeader == decodeBuffer[..HEADER_SIZE])
    }

    ghost predicate HasQueues()
      reads this
    {
      forall p :: p in protocols ==> p in queues
    }

    constructor ()
      ensures Valid() && protocols == [] && decodeBuffer == [] && chunkedBuffers == map[]
    {
      protocols, queues, sequenceId, lastProtocol := [], map[], map[], 0;
      chunkedBuffers, decodeBuffer, cachedHeader := map[], [], [];
    }

    method AddProtocol(pid: nat)
      requires Valid() && pid !in queues
      modifies this
      ensures Valid() && State() == MuxState.AddProtocol(old(State()), pid)
      ensures chunkedBuffers == old(chunkedBuffers)[pid := map[]]
      ensures decodeBuffer == old(decodeBuffer) && cachedHeader == old(cachedHeader)
    {
      protocols := protocols + [pid];
      queues := queues[pid := Queues([], [], [])];
      sequenceId := sequenceId[pid := 0];
      chunkedBuffers := chunkedBuffers[pid := map[]];
      lastProtocol := pid;
    }

    method NumActiveProtocols() returns (n: nat)
      requires HasQueues()
      ensures n == ActiveCount(protocols, queues)
    {
      n := 0;
      var i := 0;
      while i < |protocols|
        invariant 0 <= i <= |protocols|
        invariant n + ActiveCount(protocols[i..], queues) == ActiveCount(protocols, queues)
      {
        assert protocols[i..][1..] == protocols[i + 1..];
        if queues[protocols[i]].Active() {
          n := n + 1;
        }
        i := i + 1;
      }
    }

    /** The window for a packet about to be cut for `pid`, or (None) for frames about to be sent. */
    method ProtocolWindowSize(pid: Option<nat>) returns (window: nat)
      requires HasQueues() && (pid.Some? ==> pid.value in queues)
      ensures window == if pid.Some? then PacketWindow(protocols, queues, pid.value) else SendWindow(protocols, queues)
      ensures MuxOk(State()) ==> window % 16 == 0 && Sharing(State(), pid) * window <= 8192 < Sharing(State(), pid) * (window + 16)
    {
      if MuxOk(State()) {
        WindowsAre(State(), if pid.Some? then pid.value else 0);
      }
      var n := NumActiveProtocols();
      if pid.Some? && pid.value != 0 && !queues[pid.value].Active() {
        window := Window(1 + n);
      } else {
        window := Window(if n == 0 then 1 else n);
      }
    }

    /** Put the frames of one packet into its queue; false when an assertion of the source fails. */
    static method PutFrames(q0: Queues, frames: seq<Frame>, prioritize: bool) returns (ok: bool, q: Queues)
      requires frames != []
      ensures Enqueue(q0, frames, prioritize) == if ok then Some(q) else None
    {
      q := q0;
      if prioritize {
        if |frames| != 1 || FrameSize(frames[0]) > MAX_PRIORITY_FRAME {
          return false, q0;
        }
        q := q.(priority := q.priority + frames);
      } else if |frames| == 1 {
        q := q.(normal := q.normal + frames);
      } else {
        q := q.(chunked := q.chunked + frames);
      }
      ok := true;
    }

    /** Cut a packet into frames for the window of the moment and queue them. */
    method AddPacket(p: Packet, prioritize: bool) returns (ok: bool)
      requires Valid()
      modifies this`queues, this`sequenceId
      ensures Valid() && (State(), ok) == MuxState.AddPacket(old(State()), p, prioritize)
    {
      AddKeepsOk(State(), p, prioritize);
      ok := QueuePacket(p, prioritize);
    }

    method QueuePacket(p: Packet, prioritize: bool) returns (ok: bool)
      requires Valid()
      modifies this`queues, this`sequenceId
      ensures (State(), ok) == MuxState.AddPacket(old(State()), p, prioritize)
    {
      if p.pid !in sequenceId {
        return false;
      }
      var sid := sequenceId[p.pid];
      var window := ProtocolWindowSize(Some(p.pid));
      sequenceId := sequenceId[p.pid := (sid + 1) % 0x1_0000];
      var frames := PacketFrames(p, sid, window);
      if frames == None {
        return false;
      }
      FramesFitWindow(p, sid, window);
      var put, q := PutFrames(queues[p.pid], frames.value, prioritize);
      if put {
        queues := queues[p.pid := q];
      }
      ok := put;
    }

    /** Advance the round robin. */
    method NextProtocol() returns (i: nat)
      requires Valid() && protocols != []
      modifies this`lastProtocol
      ensures Valid() && i == NextIndex(protocols, old(lastProtocol)) && lastProtocol == protocols[i]
    {
      if lastProtocol == protocols[|protocols| - 1] {
        i := 0;
      } else {
        i := IndexOf(protocols, lastProtocol) + 1;
      }
      lastProtocol := protocols[i];
    }

    /** One cycle over the three queues of a protocol; no more than two frames. */
    static method PopCycle(queues0: Queues, size0: nat, window: nat) returns (frames: seq<Frame>, queues: Queues, size: nat)
      ensures var c := Cycle(queues0, size0, window);
              frames == FramesIn(c.taken) && queues == c.queues && size == c.size
    {
      frames, queues, size := [], queues0, size0;
      ghost var taken: seq<Tagged> := [];
      var i := 0;
      while i < |LANES|
        invariant 0 <= i <= |LANES|
        invariant frames == FramesIn(taken) && |taken| <= 2
        invariant Visit(Batch(taken, queues, size), LANES[i..], window) == Cycle(queues0, size0, window)
      {
        VisitStep(Batch(taken, queues, size), i, window);
        if |frames| == 2 {
          FullVisit(Batch(taken, queues, size), LANES[i..], window);
          break;
        }
        frames, queues, size, taken := VisitQueue(frames, queues, size, taken, LANES[i], window);
        i := i + 1;
      }
    }

    /** Take the head frame of one queue, if there is one and it fits. */
    static method VisitQueue(frames0: seq<Frame>, queues0: Queues, size0: nat, ghost taken0: seq<Tagged>, lane: Lane, window: nat)
      returns (frames: seq<Frame>, queues: Queues, size: nat, ghost taken: seq<Tagged>)
      requires frames0 == FramesIn(taken0) && |taken0| < 2
      ensures Batch(taken, queues, size) == Take(Batch(taken0, queues0, size0), lane, window)
      ensures frames == FramesIn(taken) && |taken| <= 2
    {
      frames, queues, size, taken := frames0, queues0, size0, taken0;
      var q := queues.Get(lane);
      if |q| > 0 {
        var fs := FrameSize(q[0]);
        if size + fs <= window {
          FramesInConcat(taken, [Tagged(lane, q[0])]);
          taken := taken + [Tagged(lane, q[0])];
          frames := frames + [q[0]];
          queues := queues.Set(lane, q[1..]);
          size := size + fs;
        }
      }
    }

    /** Cycles over the queues of a protocol until the window is full or nothing fits. */
    static method PopFromQueues(queues0: Queues, window: nat) returns (frames: seq<Frame>, queues: Queues)
      ensures frames == FramesIn(Drain(queues0, window).taken) && queues == Drain(queues0, window).queues
    {
      frames, queues := [], queues0;
      var size := 0;
      ghost var taken: seq<Tagged> := [];
      while size < window
        invariant frames == FramesIn(taken)
        invariant DrainsOn(queues0, window, taken, queues, size)
        decreases if size < window then window - size else 0
      {
        var added, queues', size' := PopCycle(queues, size, window);
        DrainsOnCycle(queues0, window, taken, queues, size);
        ghost var c := Cycle(queues, size, window);
        FramesInConcat(taken, c.taken);
        taken := taken + c.taken;
        frames, queues, size := frames + added, queues', size';
        if |added| == 0 {
          assert taken + [] == taken;
          break;
        }
      }
      DrainsOnEnd(queues0, window, taken, queues, size);
    }

    /** Frames of one protocol up to the window of the moment. */
    method PopFramesForProtocol(pid: nat) returns (frames: seq<Frame>)
      requires HasQueues() && pid in queues
      modifies this`queues
      ensures var b := Drain(old(queues)[pid], SendWindow(protocols, old(queues)));
              frames == FramesIn(b.taken) && queues == old(queues)[pid := b.queues]
    {
      var window := ProtocolWindowSize(None);
      var q;
      frames, q := PopFromQueues(queues[pid], window);
      queues := queues[pid := q];
    }

    /** Ask the protocols of the rotation in turn until one has frames to send. */
    method PopInTurn(rotation: seq<nat>) returns (frames: seq<Frame>)
      requires HasQueues() && forall p :: p in rotation ==> p in queues
      modifies this`queues
      ensures var r := FirstServed(rotation, old(queues), SendWindow(protocols, old(queues)));
              frames == ServedFrames(r) && queues == QueuesAfter(old(queues), r)
    {
      ghost var window := SendWindow(protocols, queues);
      assert rotation[0..] == rotation;
      var j := 0;
      while j < |rotation|
        invariant 0 <= j <= |rotation| && queues == old(queues)
        invariant FirstServed(rotation[j..], queues, window) == FirstServed(rotation, queues, window)
      {
        assert rotation[j] in rotation;
        FirstServedStep(rotation, j, queues, window);
        frames := PopFramesForProtocol(rotation[j]);
        if frames != [] {
          return;
        }
        j := j + 1;
      }
      frames := [];
    }

    /** The round robin moves on and the protocols are asked in turn. */
    method PopNext() returns (frames: seq<Frame>)
      requires Valid() && protocols != []
      modifies this`lastProtocol, this`queues
      ensures var r := NextServed(protocols, old(queues), old(lastProtocol));
              frames == ServedFrames(r) && queues == QueuesAfter(old(queues), r)
      ensures lastProtocol == protocols[NextIndex(protocols, old(lastProtocol))]
    {
      RotationHasQueues(protocols, queues, NextIndex(protocols, lastProtocol));
      var i := NextProtocol();
      frames := PopInTurn(Rotation(protocols, i));
    }

    /** The frames of the next protocol that has any to send. */
    method PopFrames() returns (frames: seq<Frame>)
      requires Valid() && protocols != []
      modifies this`lastProtocol, this`queues
      ensures Valid() && State() == MuxState.PopFrames(old(State())).0
      ensures frames == ServedFrames(MuxState.PopFrames(old(State())).1)
    {
      ghost var r := PopFramesIs(State());
      frames := PopNext();
    }

    /** Frames until there are no more. */
    method PopAllFrames() returns (frames: seq<Frame>)
      requires Valid() && protocols != []
      modifies this`lastProtocol, this`queues
      ensures Valid() && State() == PopAll(old(State())).0
      ensures frames == FramesOut(PopAll(old(State())).1)
    {
      frames := [];
      ghost var start := State();
      while true
        invariant Valid() && protocols != []
        invariant PopAll(State()).0 == PopAll(start).0
        invariant frames + FramesOut(PopAll(State()).1) == FramesOut(PopAll(start).1)
        decreases Total(protocols, queues)
      {
        PopAllStep(State());
        ghost var frames0 := frames;
        var r := PopFrames();
        frames := frames + r;
        RegroupFrames(frames0, r, FramesOut(PopAll(State()).1));
        if r == [] {
          break;
        }
      }
    }

    /** Take in bytes and return the packets that are complete; `ok` is false on a decoding fault. */
    method Decode(data: seq<Byte>) returns (ok: bool, packets: seq<Packet>)
      requires Valid()
      modifies this`chunkedBuffers, this`decodeBuffer, this`cachedHeader
      ensures var r := FrameCodec.Decode(old(chunkedBuffers), old(decodeBuffer) + data);
              && ok == !r.fault
              && (ok ==> packets == r.packets)
              && chunkedBuffers == r.bufs && decodeBuffer == r.rest
      ensures Valid()
      decreases |decodeBuffer| + |data|
    {
      ok, packets := true, [];
      DecodeCases(chunkedBuffers, decodeBuffer + data, FrameCodec.Decode(chunkedBuffers, decodeBuffer + data));
      if cachedHeader != [] {
        assert (decodeBuffer + data)[..HEADER_SIZE] == decodeBuffer[..HEADER_SIZE];
      }
      decodeBuffer := decodeBuffer + data;
      if cachedHeader == [] {
        if |decodeBuffer| < HEADER_SIZE + MAC_SIZE {
          return;
        }
        cachedHeader := decodeBuffer[..HEADER_SIZE];
      }
      var bodySize := SizeIn(cachedHeader);
      var requiredLength := HEADER_SIZE + MAC_SIZE + Ceil16(bodySize) + MAC_SIZE;
      assert requiredLength == RequiredLength(decodeBuffer);
      if |decodeBuffer| >= requiredLength {
        var decoded, packet := DecodeBody();
        if !decoded {
          return false, [];
        }
        cachedHeader := [];
        decodeBuffer := decodeBuffer[requiredLength..];
        assert decodeBuffer + [] == decodeBuffer;
        ok, packets := Decode([]);
        if ok && packet.Some? && |packet.value.payload| > 0 {
          packets := [packet.value] + packets;
        }
      }
    }

    /** Decode the frame at the front of the buffer into the reassembly buffers. */
    method DecodeBody() returns (decoded: bool, packet: Option<Packet>)
      requires HasFrame(decodeBuffer)
      modifies this`chunkedBuffers
      ensures var f := ParseFrame(decodeBuffer);
              var o := if f.Some? then Reassemble(old(chunkedBuffers), f.value) else Fault;
              if decoded then o == Done(chunkedBuffers, packet) else o == Fault && chunkedBuffers == old(chunkedBuffers)
    {
      decoded, packet := false, None;
      var parsed := ParseFrame(decodeBuffer);
      if parsed == None || parsed.value.pid !in chunkedBuffers {
        return;
      }
      var f := parsed.value;
      var chunkbuf := chunkedBuffers[f.pid];
      if f.sid.Some? && f.sid.value in chunkbuf {
        var partial := chunkbuf[f.sid.value];
        if f.total.Some? {
          return;
        }
        if |f.body| > partial.total - |partial.payload| {
          return;
        }
        partial := partial.(payload := partial.payload + f.body);
        if partial.total == |partial.payload| {
          chunkbuf := chunkbuf - {f.sid.value};
          packet := Some(Packet(f.pid, partial.cmd, partial.payload));
        } else {
          chunkbuf := chunkbuf[f.sid.value := partial];
        }
      } else {
        var item := ConsumeInt(f.body);
        if item == None {
          return;
        }
        var (cmd, end) := item.value;
        var payload := f.body[end..];
        if f.total == None || f.total.value - end == |payload| {
          packet := Some(Packet(f.pid, cmd, payload));
        } else if f.total.value - end < |payload| || f.sid == None {
          return;
        } else {
          chunkbuf := chunkbuf[f.sid.value := Partial(cmd, payload, f.total.value - end)];
        }
      }
      chunkedBuffers := chunkedBuffers[f.pid := chunkbuf];
      decoded := true;
    }
  }
}

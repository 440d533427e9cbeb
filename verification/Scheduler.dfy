/**
 * The sending side of the multiplexer: three queues per protocol, a window shared by the active
 * protocols, and round-robin draining.  These are the specification functions of the class in
 * Multiplexer.dfy.
 */
module Scheduler {
  import opened Options
  import opened Rlp
  import opened Frames

  const MAX_WINDOW := 8192
  const MAX_PRIORITY_FRAME := 1024

  datatype Lane = Priority | Normal | Chunked

  datatype Queues = Queues(priority: seq<Frame>, normal: seq<Frame>, chunked: seq<Frame>)
  {
    function Get(lane: Lane): seq<Frame> {
      match lane
      case Priority => priority
      case Normal => normal
      case Chunked => chunked
    }

    function Set(lane: Lane, q: seq<Frame>): (r: Queues)
      ensures r.Get(lane) == q && forall l :: l != lane ==> r.Get(l) == Get(l)
    {
      match lane
      case Priority => this.(priority := q)
      case Normal => this.(normal := q)
      case Chunked => this.(chunked := q)
    }

    predicate Active() {
      |priority| + |normal| + |chunked| > 0
    }

    function Count(): nat {
      |priority| + |normal| + |chunked|
    }
  }

  /** A window of `MAX_WINDOW / n` bytes, rounded down to the padding. */
  function Window(n: nat): (w: nat)
    requires n > 0
    ensures w % PADDING == 0 && w <= MAX_WINDOW
  {
    MAX_WINDOW / n - MAX_WINDOW / n % PADDING
  }

  function ActiveCount(protocols: seq<nat>, queues: map<nat, Queues>): (n: nat)
    ensures n <= |protocols|
  {
    if protocols == [] then 0
    else (if protocols[0] in queues && queues[protocols[0]].Active() then 1 else 0) + ActiveCount(protocols[1..], queues)
  }

  /** The window when a frame is about to be sent: shared by the active protocols. */
  function SendWindow(protocols: seq<nat>, queues: map<nat, Queues>): (w: nat)
    ensures w % PADDING == 0
  {
    var n := ActiveCount(protocols, queues);
    Window(if n == 0 then 1 else n)
  }

  /** The window for a packet of `pid`: an idle protocol counts itself in, unless its id is 0. */
  function PacketWindow(protocols: seq<nat>, queues: map<nat, Queues>, pid: nat): (w: nat)
    requires pid in queues
    ensures w % PADDING == 0
  {
    if pid != 0 && !queues[pid].Active() then Window(1 + ActiveCount(protocols, queues))
    else SendWindow(protocols, queues)
  }

  // ---------- Queueing a packet ----------

  /** The queues after the frames of a packet are put in; None when an assertion of the source fails. */
  function Enqueue(queues: Queues, frames: seq<Frame>, prioritize: bool): Option<Queues>
    requires frames != []
  {
    if prioritize then
      if |frames| == 1 && FrameSize(frames[0]) <= MAX_PRIORITY_FRAME
      then Some(queues.(priority := queues.priority + frames)) else None
    else if |frames| == 1 then Some(queues.(normal := queues.normal + frames))
    else Some(queues.(chunked := queues.chunked + frames))
  }

  /** Which queue a packet of so many frames goes to. */
  function LaneOf(frames: seq<Frame>, prioritize: bool): Lane {
    if prioritize then Priority else if |frames| == 1 then Normal else Chunked
  }

  lemma EnqueueAppends(queues: Queues, frames: seq<Frame>, prioritize: bool, lane: Lane)
    requires frames != [] && Enqueue(queues, frames, prioritize).Some?
    ensures Enqueue(queues, frames, prioritize).value.Get(lane)
         == queues.Get(lane) + if lane == LaneOf(frames, prioritize) then frames else []
  {
  }

  // ---------- Draining the queues of one protocol ----------

  datatype Tagged = Tagged(lane: Lane, frame: Frame)

  /** Frames taken so far, what is left in the queues, and the bytes taken. */
  datatype Batch = Batch(taken: seq<Tagged>, queues: Queues, size: nat)

  predicate Fits(queue: seq<Frame>, size: nat, window: nat) {
    queue != [] && size + FrameSize(queue[0]) <= window
  }

  /** Take the head frame of one queue, if it fits and fewer than two were taken in this cycle. */
  function Take(b: Batch, lane: Lane, window: nat): Batch {
    var q := b.queues.Get(lane);
    if |b.taken| < 2 && Fits(q, b.size, window)
    then Batch(b.taken + [Tagged(lane, q[0])], b.queues.Set(lane, q[1..]), b.size + FrameSize(q[0]))
    else b
  }

  /** Going over the queues of `lanes` in order. */
  function Visit(b: Batch, lanes: seq<Lane>, window: nat): (r: Batch)
    ensures |r.taken| == |b.taken| ==> r == b
    ensures |b.taken| <= |r.taken| && (|b.taken| < |r.taken| ==> b.size < r.size <= window)
    decreases |lanes|
  {
    if lanes == [] then b else Visit(Take(b, lanes[0], window), lanes[1..], window)
  }

  const LANES := [Priority, Normal, Chunked]

  /** One cycle over the three queues, priority first. */
  function Cycle(queues: Queues, size: nat, window: nat): (b: Batch)
    ensures b.taken != [] ==> size < b.size <= window
  {
    Visit(Batch([], queues, size), LANES, window)
  }

  function DrainFrom(queues: Queues, size: nat, window: nat): Batch
    decreases if size < window then window - size else 0
  {
    if size >= window then Batch([], queues, size)
    else
      var c := Cycle(queues, size, window);
      if c.taken == [] then c
      else
        var d := DrainFrom(c.queues, c.size, window);
        d.(taken := c.taken + d.taken)
  }

  function Drain(queues: Queues, window: nat): Batch {
    DrainFrom(queues, 0, window)
  }

  function FramesIn(taken: seq<Tagged>): seq<Frame> {
    seq(|taken|, i requires 0 <= i < |taken| => taken[i].frame)
  }

  function OfLane(taken: seq<Tagged>, lane: Lane): seq<Frame> {
    if taken == [] then []
    else (if taken[0].lane == lane then [taken[0].frame] else []) + OfLane(taken[1..], lane)
  }

  function TotalSize(taken: seq<Tagged>): nat {
    if taken == [] then 0 else FrameSize(taken[0].frame) + TotalSize(taken[1..])
  }

  lemma {:induction false} OfLaneConcat(a: seq<Tagged>, b: seq<Tagged>, lane: Lane)
    ensures OfLane(a + b, lane) == OfLane(a, lane) + OfLane(b, lane)
    decreases |a|
  {
    if a == [] {
      assert a + b == b;
    } else {
      var tail := a[1..];
      assert (a + b)[1..] == tail + b;
      OfLaneConcat(tail, b, lane);
      var first := if a[0].lane == lane then [a[0].frame] else [];
      assert OfLane(a + b, lane) == first + OfLane(tail + b, lane);
      assert first + (OfLane(tail, lane) + OfLane(b, lane)) == (first + OfLane(tail, lane)) + OfLane(b, lane);
    }
  }

  lemma {:induction false} TotalSizeConcat(a: seq<Tagged>, b: seq<Tagged>)
    ensures TotalSize(a + b) == TotalSize(a) + TotalSize(b)
  {
    if a == [] {
      assert a + b == b;
    } else {
      assert (a + b)[1..] == a[1..] + b;
      TotalSizeConcat(a[1..], b);
    }
  }

  /** `b` took frames off the front of each queue of `queues`, and nothing else happened. */
  ghost predicate TookPrefixes(queues: Queues, size: nat, b: Batch) {
    && (forall lane :: OfLane(b.taken, lane) + b.queues.Get(lane) == queues.Get(lane))
    && b.size == size + TotalSize(b.taken)
  }

  lemma TakeTakesPrefix(queues: Queues, size: nat, b: Batch, lane: Lane, window: nat)
    requires TookPrefixes(queues, size, b)
    ensures TookPrefixes(queues, size, Take(b, lane, window))
  {
    var q := b.queues.Get(lane);
    if |b.taken| < 2 && Fits(q, b.size, window) {
      var t := [Tagged(lane, q[0])];
      var b' := Take(b, lane, window);
      TotalSizeConcat(b.taken, t);
      assert t[1..] == [];
      forall l ensures OfLane(b'.taken, l) + b'.queues.Get(l) == queues.Get(l) {
        HeadMoves(b.taken, Tagged(lane, q[0]), l, b.queues.Get(l));
      }
    }
  }

  /** The head frame of its queue moves to the end of what was taken. */
  lemma HeadMoves(taken: seq<Tagged>, t: Tagged, lane: Lane, queue: seq<Frame>)
    requires lane == t.lane ==> queue != [] && queue[0] == t.frame
    ensures OfLane(taken + [t], lane) + (if lane == t.lane then queue[1..] else queue) == OfLane(taken, lane) + queue
  {
    OfLaneConcat(taken, [t], lane);
    assert [t][1..] == [];
    if lane == t.lane {
      assert queue == [t.frame] + queue[1..];
      assert OfLane([t], lane) == [t.frame];
    } else {
      assert OfLane([t], lane) == [];
    }
  }

  lemma {:induction false} VisitTakesPrefixes(queues: Queues, size: nat, b: Batch, lanes: seq<Lane>, window: nat)
    requires TookPrefixes(queues, size, b)
    ensures TookPrefixes(queues, size, Visit(b, lanes, window))
    decreases |lanes|
  {
    if lanes != [] {
      TakeTakesPrefix(queues, size, b, lanes[0], window);
      VisitTakesPrefixes(queues, size, Take(b, lanes[0], window), lanes[1..], window);
    }
  }

  lemma LaneChain(a: seq<Tagged>, b: seq<Tagged>, lane: Lane, before: seq<Frame>, mid: seq<Frame>, after: seq<Frame>)
    requires OfLane(a, lane) + mid == before && OfLane(b, lane) + after == mid
    ensures OfLane(a + b, lane) + after == before
  {
    OfLaneConcat(a, b, lane);
    assert (OfLane(a, lane) + OfLane(b, lane)) + after == OfLane(a, lane) + (OfLane(b, lane) + after);
  }

  lemma PrefixesChain(queues: Queues, size: nat, c: Batch, d: Batch)
    requires TookPrefixes(queues, size, c) && TookPrefixes(c.queues, c.size, d)
    ensures TookPrefixes(queues, size, d.(taken := c.taken + d.taken))
  {
    TotalSizeConcat(c.taken, d.taken);
    forall lane ensures OfLane(c.taken + d.taken, lane) + d.queues.Get(lane) == queues.Get(lane) {
      LaneChain(c.taken, d.taken, lane, queues.Get(lane), c.queues.Get(lane), d.queues.Get(lane));
    }
  }

  /** Draining takes frames in order off the front of each queue, no more bytes than the window. */
  lemma {:induction false} DrainTakesPrefixes(queues: Queues, size: nat, window: nat)
    ensures TookPrefixes(queues, size, DrainFrom(queues, size, window))
    ensures size <= window ==> DrainFrom(queues, size, window).size <= window
    decreases if size < window then window - size else 0
  {
    if size < window {
      var c := Cycle(queues, size, window);
      VisitTakesPrefixes(queues, size, Batch([], queues, size), LANES, window);
      if c.taken != [] {
        DrainTakesPrefixes(c.queues, c.size, window);
        PrefixesChain(queues, size, c, DrainFrom(c.queues, c.size, window));
      }
    }
  }

  /** Some head frame fits the empty window. */
  predicate HeadFits(queues: Queues, window: nat) {
    Fits(queues.priority, 0, window) || Fits(queues.normal, 0, window) || Fits(queues.chunked, 0, window)
  }

  /** A cycle takes nothing exactly when no head frame of the queues gone over fits. */
  lemma {:induction false} VisitTakesIffFits(b: Batch, lanes: seq<Lane>, window: nat)
    requires b.taken == []
    ensures Visit(b, lanes, window).taken == [] <==> forall l :: l in lanes ==> !Fits(b.queues.Get(l), b.size, window)
    decreases |lanes|
  {
    if lanes != [] {
      assert forall l :: l in lanes <==> l == lanes[0] || l in lanes[1..];
      if !Fits(b.queues.Get(lanes[0]), b.size, window) {
        VisitTakesIffFits(b, lanes[1..], window);
      }
    }
  }

  /** Draining gets nothing exactly when no head frame fits. */
  lemma DrainsIffHeadFits(queues: Queues, window: nat)
    ensures Drain(queues, window).taken != [] <==> HeadFits(queues, window)
    ensures Drain(queues, window).taken == [] ==> Drain(queues, window) == Batch([], queues, 0)
  {
    VisitTakesIffFits(Batch([], queues, 0), LANES, window);
    assert Priority in LANES && Normal in LANES && Chunked in LANES;
  }

  // ---------- Round robin ----------

  function IndexOf(protocols: seq<nat>, pid: nat): (i: nat)
    requires pid in protocols
    ensures i < |protocols| && protocols[i] == pid
  {
    if protocols[0] == pid then 0 else 1 + IndexOf(protocols[1..], pid)
  }

  /** The protocol after `last` in insertion order, wrapping around at the end. */
  function NextIndex(protocols: seq<nat>, last: nat): (i: nat)
    requires last in protocols
    ensures i < |protocols|
  {
    if last == protocols[|protocols| - 1] then 0 else IndexOf(protocols, last) + 1
  }

  function Rotation(protocols: seq<nat>, i: nat): seq<nat>
    requires i <= |protocols|
  {
    protocols[i..] + protocols[..i]
  }

  /** The first protocol of the rotation that has a frame to send, with what it sends. */
  datatype Served = Nothing | Served(pid: nat, batch: Batch)

  function FirstServed(rotation: seq<nat>, queues: map<nat, Queues>, window: nat): (r: Served)
    requires forall p :: p in rotation ==> p in queues
    ensures r.Served? ==> r.pid in rotation && r.batch == Drain(queues[r.pid], window) && r.batch.taken != []
  {
    if rotation == [] then Nothing
    else
      var b := Drain(queues[rotation[0]], window);
      if b.taken != [] then Served(rotation[0], b) else FirstServed(rotation[1..], queues, window)
  }

  lemma {:induction false} ServedIffSomeoneFits(rotation: seq<nat>, queues: map<nat, Queues>, window: nat)
    requires forall p :: p in rotation ==> p in queues
    ensures FirstServed(rotation, queues, window).Served?
       <==> exists p :: p in rotation && HeadFits(queues[p], window)
  {
    if rotation != [] {
      DrainsIffHeadFits(queues[rotation[0]], window);
      ServedIffSomeoneFits(rotation[1..], queues, window);
    }
  }
}

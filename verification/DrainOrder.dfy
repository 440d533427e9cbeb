/**
 * The order in which draining takes frames from the three queues of a protocol, frame by frame: what
 * may come next depends on the frame before, and the first queue whose head fits is taken.
 */
module DrainOrder {
  import opened Options
  import opened Rlp
  import opened Frames
  import opened Scheduler

  /** Nothing to make up for; behind a priority frame; behind a normal frame that came first. */
  datatype Turn = Fresh | AfterPriority | AfterNormal

  /** `a` is tried before `b`. */
  predicate TriedBefore(turn: Turn, a: Lane, b: Lane) {
    match turn
    case Fresh => (a == Priority && b != Priority) || (a == Normal && b == Chunked)
    case AfterPriority => (a == Normal && b != Normal) || (a == Chunked && b == Priority)
    case AfterNormal => (a == Chunked && b != Chunked) || (a == Priority && b == Normal)
  }

  function NextTurn(turn: Turn, lane: Lane): Turn {
    match lane
    case Priority => AfterPriority
    case Normal => if turn == AfterPriority then Fresh else AfterNormal
    case Chunked => Fresh
  }

  /** The head of the queue of `lane` fits behind `size` bytes. */
  predicate HasRoom(q: Queues, lane: Lane, size: nat, window: nat) {
    q.Get(lane) != [] && size + FrameSize(q.Get(lane)[0]) <= window
  }

  /** Each frame is the first head that fits, in the order of its turn; at the end none fits. */
  ghost predicate InTurn(q: Queues, size: nat, window: nat, turn: Turn, taken: seq<Tagged>)
    decreases |taken|
  {
    if taken == [] then forall lane :: !HasRoom(q, lane, size, window)
    else
      var t := taken[0];
      && HasRoom(q, t.lane, size, window) && q.Get(t.lane)[0] == t.frame
      && (forall lane :: TriedBefore(turn, lane, t.lane) ==> !HasRoom(q, lane, size, window))
      && InTurn(q.Set(t.lane, q.Get(t.lane)[1..]), size + FrameSize(t.frame), window, NextTurn(turn, t.lane), taken[1..])
  }

  // ---------- One cycle ----------

  function First(q: Queues, lane: Lane): Tagged
    requires q.Get(lane) != []
  {
    Tagged(lane, q.Get(lane)[0])
  }

  function Pop(q: Queues, lane: Lane): Queues
    requires q.Get(lane) != []
  {
    q.Set(lane, q.Get(lane)[1..])
  }

  lemma CycleIs(q: Queues, size: nat, window: nat)
    ensures Cycle(q, size, window)
         == Take(Take(Take(Batch([], q, size), Priority, window), Normal, window), Chunked, window)
  {
    assert LANES[1..] == [Normal, Chunked];
    assert LANES[1..][1..] == [Chunked];
    assert LANES[1..][1..][1..] == [];
  }

  /** A cycle of one frame. */
  lemma OnePriority(q: Queues, size: nat, window: nat)
    requires HasRoom(q, Priority, size, window)
    requires !HasRoom(q, Normal, size + FrameSize(q.priority[0]), window) && !HasRoom(q, Chunked, size + FrameSize(q.priority[0]), window)
    ensures Cycle(q, size, window) == Batch([First(q, Priority)], Pop(q, Priority), size + FrameSize(q.priority[0]))
  {
    CycleIs(q, size, window);
    assert [] + [First(q, Priority)] == [First(q, Priority)];
  }

  lemma OneNormal(q: Queues, size: nat, window: nat)
    requires !HasRoom(q, Priority, size, window) && HasRoom(q, Normal, size, window)
    requires !HasRoom(q, Chunked, size + FrameSize(q.normal[0]), window)
    ensures Cycle(q, size, window) == Batch([First(q, Normal)], Pop(q, Normal), size + FrameSize(q.normal[0]))
  {
    CycleIs(q, size, window);
    assert [] + [First(q, Normal)] == [First(q, Normal)];
  }

  lemma OneChunked(q: Queues, size: nat, window: nat)
    requires !HasRoom(q, Priority, size, window) && !HasRoom(q, Normal, size, window) && HasRoom(q, Chunked, size, window)
    ensures Cycle(q, size, window) == Batch([First(q, Chunked)], Pop(q, Chunked), size + FrameSize(q.chunked[0]))
  {
    CycleIs(q, size, window);
    assert [] + [First(q, Chunked)] == [First(q, Chunked)];
  }

  /** A cycle of two. */
  lemma TwoFrames(q: Queues, size: nat, window: nat, a: Lane, b: Lane, s: Tagged, t: Tagged)
    requires (a == Priority && b == Normal) || (a == Priority && b == Chunked) || (a == Normal && b == Chunked)
    requires HasRoom(q, a, size, window) && s == First(q, a)
    requires a == Normal ==> !HasRoom(q, Priority, size, window)
    requires HasRoom(Pop(q, a), b, size + FrameSize(s.frame), window) && t == First(Pop(q, a), b)
    requires a == Priority && b == Chunked ==> !HasRoom(Pop(q, a), Normal, size + FrameSize(s.frame), window)
    ensures Cycle(q, size, window) == Batch([s, t], Pop(Pop(q, a), b), size + FrameSize(s.frame) + FrameSize(t.frame))
  {
    CycleIs(q, size, window);
    assert [] + [s] == [s] && [s] + [t] == [s, t];
  }

  // ---------- Draining follows the turns ----------

  /** Behind a single frame the next cycle starts where the turn goes on. */
  lemma SameFromFresh(q: Queues, size: nat, window: nat, turn: Turn, taken: seq<Tagged>)
    requires InTurn(q, size, window, Fresh, taken)
    requires turn == AfterPriority ==> !HasRoom(q, Normal, size, window) && !HasRoom(q, Chunked, size, window)
    requires turn == AfterNormal ==> !HasRoom(q, Priority, size, window) && !HasRoom(q, Chunked, size, window)
    ensures InTurn(q, size, window, turn, taken)
  {
  }

  lemma LaterNoRoom(q: Queues, lane: Lane, size: nat, size': nat, window: nat)
    requires !HasRoom(q, lane, size, window) && size <= size'
    ensures !HasRoom(q, lane, size', window)
  {
  }

  lemma TwoInTurn(q: Queues, size: nat, window: nat, turn: Turn, s: Tagged, t: Tagged, rest: seq<Tagged>)
    requires HasRoom(q, s.lane, size, window) && s == First(q, s.lane)
    requires forall lane :: TriedBefore(turn, lane, s.lane) ==> !HasRoom(q, lane, size, window)
    requires InTurn(Pop(q, s.lane), size + FrameSize(s.frame), window, NextTurn(turn, s.lane), [t] + rest)
    ensures InTurn(q, size, window, turn, [s, t] + rest)
  {
    assert ([s, t] + rest)[1..] == [t] + rest;
  }

  lemma OneInTurn(q: Queues, size: nat, window: nat, turn: Turn, t: Tagged, rest: seq<Tagged>)
    requires HasRoom(q, t.lane, size, window) && t == First(q, t.lane)
    requires forall lane :: TriedBefore(turn, lane, t.lane) ==> !HasRoom(q, lane, size, window)
    requires InTurn(Pop(q, t.lane), size + FrameSize(t.frame), window, NextTurn(turn, t.lane), rest)
    ensures InTurn(q, size, window, turn, [t] + rest)
  {
    assert ([t] + rest)[1..] == rest;
  }

  /** What one cycle takes, and what it leaves, decides the rest. */
  lemma CycleInTurn(q: Queues, size: nat, window: nat, rest: seq<Tagged>)
    requires var c := Cycle(q, size, window); c.taken != [] && InTurn(c.queues, c.size, window, Fresh, rest)
    ensures InTurn(q, size, window, Fresh, Cycle(q, size, window).taken + rest)
  {
    if HasRoom(q, Priority, size, window) {
      PriorityCycle(q, size, window, rest);
    } else if HasRoom(q, Normal, size, window) {
      NormalCycle(q, size, window, rest);
    } else {
      CycleIs(q, size, window);
      var t := First(q, Chunked);
      OneChunked(q, size, window);
      OneInTurn(q, size, window, Fresh, t, rest);
    }
  }

  /** A cycle of two frames, in turn. */
  lemma PairCycle(q: Queues, size: nat, window: nat, a: Lane, b: Lane, rest: seq<Tagged>)
    requires (a == Priority && b == Normal) || (a == Priority && b == Chunked) || (a == Normal && b == Chunked)
    requires HasRoom(q, a, size, window) && (a == Normal ==> !HasRoom(q, Priority, size, window))
    requires HasRoom(Pop(q, a), b, size + FrameSize(q.Get(a)[0]), window)
    requires a == Priority && b == Chunked ==> !HasRoom(Pop(q, a), Normal, size + FrameSize(q.Get(a)[0]), window)
    requires var c := Cycle(q, size, window); InTurn(c.queues, c.size, window, Fresh, rest)
    ensures InTurn(q, size, window, Fresh, Cycle(q, size, window).taken + rest)
  {
    var s := First(q, a);
    var q1, size1 := Pop(q, a), size + FrameSize(s.frame);
    var t := First(q1, b);
    TwoFrames(q, size, window, a, b, s, t);
    OneInTurn(q1, size1, window, NextTurn(Fresh, a), t, rest);
    TwoInTurn(q, size, window, Fresh, s, t, rest);
  }

  lemma PriorityAlone(q: Queues, size: nat, window: nat, rest: seq<Tagged>)
    requires HasRoom(q, Priority, size, window)
    requires !HasRoom(q, Normal, size + FrameSize(q.priority[0]), window) && !HasRoom(q, Chunked, size + FrameSize(q.priority[0]), window)
    requires InTurn(Pop(q, Priority), size + FrameSize(q.priority[0]), window, Fresh, rest)
    ensures InTurn(q, size, window, Fresh, [First(q, Priority)] + rest)
  {
    SameFromFresh(Pop(q, Priority), size + FrameSize(q.priority[0]), window, AfterPriority, rest);
    OneInTurn(q, size, window, Fresh, First(q, Priority), rest);
  }

  lemma NormalAlone(q: Queues, size: nat, window: nat, rest: seq<Tagged>)
    requires !HasRoom(q, Priority, size, window) && HasRoom(q, Normal, size, window)
    requires !HasRoom(q, Chunked, size + FrameSize(q.normal[0]), window)
    requires InTurn(Pop(q, Normal), size + FrameSize(q.normal[0]), window, Fresh, rest)
    ensures InTurn(q, size, window, Fresh, [First(q, Normal)] + rest)
  {
    LaterNoRoom(q, Priority, size, size + FrameSize(q.normal[0]), window);
    SameFromFresh(Pop(q, Normal), size + FrameSize(q.normal[0]), window, AfterNormal, rest);
    OneInTurn(q, size, window, Fresh, First(q, Normal), rest);
  }

  lemma PriorityCycle(q: Queues, size: nat, window: nat, rest: seq<Tagged>)
    requires HasRoom(q, Priority, size, window)
    requires var c := Cycle(q, size, window); InTurn(c.queues, c.size, window, Fresh, rest)
    ensures InTurn(q, size, window, Fresh, Cycle(q, size, window).taken + rest)
  {
    var size1 := size + FrameSize(q.priority[0]);
    if HasRoom(Pop(q, Priority), Normal, size1, window) {
      PairCycle(q, size, window, Priority, Normal, rest);
    } else if HasRoom(Pop(q, Priority), Chunked, size1, window) {
      PairCycle(q, size, window, Priority, Chunked, rest);
    } else {
      OnePriority(q, size, window);
      PriorityAlone(q, size, window, rest);
    }
  }

  lemma NormalCycle(q: Queues, size: nat, window: nat, rest: seq<Tagged>)
    requires !HasRoom(q, Priority, size, window) && HasRoom(q, Normal, size, window)
    requires var c := Cycle(q, size, window); InTurn(c.queues, c.size, window, Fresh, rest)
    ensures InTurn(q, size, window, Fresh, Cycle(q, size, window).taken + rest)
  {
    if HasRoom(Pop(q, Normal), Chunked, size + FrameSize(q.normal[0]), window) {
      PairCycle(q, size, window, Normal, Chunked, rest);
    } else {
      OneNormal(q, size, window);
      NormalAlone(q, size, window, rest);
    }
  }

  /** Draining takes the frames in turn, until no head fits any more. */
  lemma {:induction false} DrainsInTurn(q: Queues, size: nat, window: nat)
    ensures InTurn(q, size, window, Fresh, DrainFrom(q, size, window).taken)
    decreases if size < window then window - size else 0
  {
    if size < window {
      var c := Cycle(q, size, window);
      if c.taken == [] {
        CycleIs(q, size, window);
      } else {
        DrainsInTurn(c.queues, c.size, window);
        CycleInTurn(q, size, window, DrainFrom(c.queues, c.size, window).taken);
      }
    }
  }

  // ---------- Any point of the sequence ----------

  /** What is left of a queue when the first `i` frames have been taken. */
  function LeftAt(q: Queues, taken: seq<Tagged>, i: nat, lane: Lane): seq<Frame>
    requires i <= |taken|
  {
    var k := |OfLane(taken[..i], lane)|;
    if k <= |q.Get(lane)| then q.Get(lane)[k..] else []
  }

  /** The next frame of a queue fits behind the first `i` frames taken. */
  predicate FitsAt(q: Queues, window: nat, taken: seq<Tagged>, i: nat, lane: Lane)
    requires i <= |taken|
  {
    FitsFrom(q, 0, window, taken, i, lane)
  }

  predicate FitsFrom(q: Queues, size: nat, window: nat, taken: seq<Tagged>, i: nat, lane: Lane)
    requires i <= |taken|
  {
    var left := LeftAt(q, taken, i, lane);
    left != [] && size + TotalSize(taken[..i]) + FrameSize(left[0]) <= window
  }

  lemma {:induction false} FitsAtFirst(q: Queues, size: nat, window: nat, taken: seq<Tagged>, lane: Lane)
    ensures FitsFrom(q, size, window, taken, 0, lane) <==> HasRoom(q, lane, size, window)
  {
    assert taken[..0] == [];
  }

  lemma {:induction false} FitsLater(q: Queues, size: nat, window: nat, taken: seq<Tagged>, i: nat, lane: Lane)
    requires 0 < i <= |taken| && q.Get(taken[0].lane) != []
    ensures FitsFrom(q, size, window, taken, i, lane)
       <==> FitsFrom(Pop(q, taken[0].lane), size + FrameSize(taken[0].frame), window, taken[1..], i - 1, lane)
  {
    FirstOfPrefix(taken, i);
    LeftBehind(q, taken, i, lane);
  }

  /** The first frame of a sequence in turn, and the rest. */
  lemma {:induction false} HeadInTurn(q: Queues, size: nat, window: nat, turn: Turn, taken: seq<Tagged>)
    requires InTurn(q, size, window, turn, taken) && taken != []
    ensures HasRoom(q, taken[0].lane, size, window) && q.Get(taken[0].lane)[0] == taken[0].frame
    ensures forall lane :: TriedBefore(turn, lane, taken[0].lane) ==> !HasRoom(q, lane, size, window)
    ensures InTurn(Pop(q, taken[0].lane), size + FrameSize(taken[0].frame), window, NextTurn(turn, taken[0].lane), taken[1..])
  {
  }

  /** Behind a normal frame that came first the priority head has no room. */
  lemma PriorityPassed(q: Queues, size: nat, window: nat, turn: Turn, t: Tagged)
    requires HasRoom(q, t.lane, size, window) && q.Get(t.lane)[0] == t.frame
    requires forall lane :: TriedBefore(turn, lane, t.lane) ==> !HasRoom(q, lane, size, window)
    ensures NextTurn(turn, t.lane) == AfterNormal ==> !HasRoom(Pop(q, t.lane), Priority, size + FrameSize(t.frame), window)
  {
    if NextTurn(turn, t.lane) == AfterNormal {
      assert TriedBefore(turn, Priority, Normal);
      LaterNoRoom(q, Priority, size, size + FrameSize(t.frame), window);
    }
  }

  /** What a frame of a sequence in turn says of the others at its point. */
  ghost predicate PointOk(q: Queues, size: nat, window: nat, taken: seq<Tagged>, i: nat, turn: Turn)
    requires i < |taken|
  {
    && (forall lane :: TriedBefore(turn, lane, taken[i].lane) ==> !FitsFrom(q, size, window, taken, i, lane))
    && (turn == AfterNormal ==> !FitsFrom(q, size, window, taken, i, Priority))
  }

  lemma {:induction false} FirstPoint(q: Queues, size: nat, window: nat, turn: Turn, taken: seq<Tagged>)
    requires InTurn(q, size, window, turn, taken) && taken != []
    requires turn == AfterNormal ==> !HasRoom(q, Priority, size, window)
    ensures PointOk(q, size, window, taken, 0, turn)
  {
    HeadInTurn(q, size, window, turn, taken);
    forall lane ensures FitsFrom(q, size, window, taken, 0, lane) <==> HasRoom(q, lane, size, window) {
      FitsAtFirst(q, size, window, taken, lane);
    }
  }

  lemma {:induction false} LaterPoint(q: Queues, size: nat, window: nat, taken: seq<Tagged>, i: nat, turn: Turn,
                                      q': Queues, size': nat, rest: seq<Tagged>)
    requires 0 < i < |taken| && q.Get(taken[0].lane) != []
    requires q' == Pop(q, taken[0].lane) && size' == size + FrameSize(taken[0].frame) && rest == taken[1..]
    requires PointOk(q', size', window, rest, i - 1, turn)
    ensures PointOk(q, size, window, taken, i, turn)
  {
    assert rest[i - 1] == taken[i];
    forall lane ensures FitsFrom(q, size, window, taken, i, lane) <==> FitsFrom(q', size', window, rest, i - 1, lane) {
      FitsLater(q, size, window, taken, i, lane);
    }
  }

  lemma TurnBehind(turn: Turn, taken: seq<Tagged>, i: nat, turn': Turn)
    requires 0 < i <= |taken|
    requires i == 1 ==> turn' == NextTurn(turn, taken[0].lane)
    requires i > 1 ==> (turn' == AfterPriority <==> taken[1..][i - 2].lane == Priority)
    requires i > 1 && turn' == AfterNormal ==> taken[1..][i - 2].lane == Normal
    ensures turn' == AfterPriority <==> taken[i - 1].lane == Priority
    ensures turn' == AfterNormal ==> taken[i - 1].lane == Normal
  {
    TailAt(taken, i);
  }

  lemma {:induction false} TurnAt(q: Queues, size: nat, window: nat, turn: Turn, taken: seq<Tagged>, i: nat) returns (turn': Turn)
    requires InTurn(q, size, window, turn, taken) && i < |taken|
    requires turn == AfterNormal ==> !HasRoom(q, Priority, size, window)
    ensures PointOk(q, size, window, taken, i, turn')
    ensures i == 0 ==> turn' == turn
    ensures i > 0 ==> (turn' == AfterPriority <==> taken[i - 1].lane == Priority)
    ensures i > 0 && turn' == AfterNormal ==> taken[i - 1].lane == Normal
    decreases i
  {
    if i == 0 {
      turn' := turn;
      FirstPoint(q, size, window, turn, taken);
    } else {
      var t := taken[0];
      HeadInTurn(q, size, window, turn, taken);
      PriorityPassed(q, size, window, turn, t);
      var next := NextTurn(turn, t.lane);
      var q', size', rest := Pop(q, t.lane), size + FrameSize(t.frame), taken[1..];
      turn' := TurnAt(q', size', window, next, rest, i - 1);
      LaterPoint(q, size, window, taken, i, turn', q', size', rest);
      TurnBehind(turn, taken, i, turn');
    }
  }

  lemma {:induction false} EndOf(q: Queues, size: nat, window: nat, turn: Turn, taken: seq<Tagged>, lane: Lane)
    requires InTurn(q, size, window, turn, taken)
    ensures !FitsFrom(q, size, window, taken, |taken|, lane)
    decreases |taken|
  {
    if taken == [] {
      FitsAtFirst(q, size, window, taken, lane);
    } else {
      var t := taken[0];
      HeadInTurn(q, size, window, turn, taken);
      EndOf(Pop(q, t.lane), size + FrameSize(t.frame), window, NextTurn(turn, t.lane), taken[1..], lane);
      FitsLater(q, size, window, taken, |taken|, lane);
    }
  }

  lemma TailAt(taken: seq<Tagged>, i: nat)
    requires 0 < i <= |taken|
    ensures taken[1..][i - 1..] == taken[i..] && (i > 1 ==> taken[1..][i - 2] == taken[i - 1])
  {
  }

  lemma FirstOfPrefix(taken: seq<Tagged>, i: nat)
    requires 0 < i <= |taken|
    ensures taken[..i] == [taken[0]] + taken[1..][..i - 1]
    ensures TotalSize(taken[..i]) == FrameSize(taken[0].frame) + TotalSize(taken[1..][..i - 1])
    ensures forall lane :: OfLane(taken[..i], lane) == (if taken[0].lane == lane then [taken[0].frame] else []) + OfLane(taken[1..][..i - 1], lane)
  {
    assert taken[..i][1..] == taken[1..][..i - 1];
  }

  lemma LeftBehind(q: Queues, taken: seq<Tagged>, i: nat, lane: Lane)
    requires 0 < i <= |taken| && q.Get(taken[0].lane) != []
    ensures LeftAt(q, taken, i, lane) == LeftAt(Pop(q, taken[0].lane), taken[1..], i - 1, lane)
  {
    FirstOfPrefix(taken, i);
    var k := |OfLane(taken[1..][..i - 1], lane)|;
    if lane == taken[0].lane {
      assert |OfLane(taken[..i], lane)| == k + 1 && Pop(q, lane).Get(lane) == q.Get(lane)[1..];
      DropTail(q.Get(lane), k);
    } else {
      assert |OfLane(taken[..i], lane)| == k && Pop(q, taken[0].lane).Get(lane) == q.Get(lane);
    }
  }

  lemma DropTail(s: seq<Frame>, k: nat)
    requires s != []
    ensures k + 1 <= |s| ==> s[1..][k..] == s[k + 1..]
  {
  }

  /** What is known of the frame at position `i`, and of the turn it was taken in. */
  lemma FrameAt(q: Queues, window: nat, i: nat) returns (turn: Turn)
    requires i < |Drain(q, window).taken|
    ensures PointOk(q, 0, window, Drain(q, window).taken, i, turn)
    ensures i == 0 ==> turn == Fresh
    ensures i > 0 ==> (turn == AfterPriority <==> Drain(q, window).taken[i - 1].lane == Priority)
    ensures i > 0 && turn == AfterNormal ==> Drain(q, window).taken[i - 1].lane == Normal
  {
    DrainsInTurn(q, 0, window);
    turn := TurnAt(q, 0, window, Fresh, Drain(q, window).taken, i);
  }

  // ---------- Main results ----------

  /** Two priority frames follow each other only if no other queue has a frame that fits in between. */
  lemma PriorityLeavesRoom(q: Queues, window: nat, i: nat)
    requires i + 1 < |Drain(q, window).taken|
    requires Drain(q, window).taken[i].lane == Priority && Drain(q, window).taken[i + 1].lane == Priority
    ensures !FitsAt(q, window, Drain(q, window).taken, i + 1, Normal) && !FitsAt(q, window, Drain(q, window).taken, i + 1, Chunked)
  {
    var turn := FrameAt(q, window, i + 1);
    assert TriedBefore(turn, Normal, Priority) && TriedBefore(turn, Chunked, Priority);
  }

  /** While the next priority frame fits, at least every second frame is one. */
  lemma PriorityComesSoon(q: Queues, window: nat, i: nat)
    requires i < |Drain(q, window).taken| && FitsAt(q, window, Drain(q, window).taken, i, Priority)
    ensures Drain(q, window).taken[i].lane == Priority || (i > 0 && Drain(q, window).taken[i - 1].lane == Priority)
  {
    var turn := FrameAt(q, window, i);
    var lane := Drain(q, window).taken[i].lane;
    assert turn == Fresh && lane != Priority ==> TriedBefore(turn, Priority, lane);
  }

  /** A chunked frame goes ahead of a normal one that fits only right behind a normal frame. */
  lemma NormalBeforeChunked(q: Queues, window: nat, i: nat)
    requires i < |Drain(q, window).taken| && Drain(q, window).taken[i].lane == Chunked
    requires FitsAt(q, window, Drain(q, window).taken, i, Normal)
    ensures i > 0 && Drain(q, window).taken[i - 1].lane == Normal
  {
    var turn := FrameAt(q, window, i);
    assert turn != AfterNormal ==> TriedBefore(turn, Normal, Chunked);
  }

  /** A priority frame and a normal frame that fit together are the first two, in that order. */
  lemma PriorityThenNormal(q: Queues, window: nat)
    requires q.priority != [] && q.normal != [] && FrameSize(q.priority[0]) + FrameSize(q.normal[0]) <= window
    ensures var taken := Drain(q, window).taken;
            |taken| >= 2 && taken[0] == Tagged(Priority, q.priority[0]) && taken[1] == Tagged(Normal, q.normal[0])
  {
    var taken := Drain(q, window).taken;
    DrainsInTurn(q, 0, window);
    assert HasRoom(q, Priority, 0, window);
    HeadInTurn(q, 0, window, Fresh, taken);
    var q1 := Pop(q, Priority);
    assert HasRoom(q1, Normal, FrameSize(q.priority[0]), window);
    HeadInTurn(q1, FrameSize(q.priority[0]), window, AfterPriority, taken[1..]);
  }

  /** Draining goes on until no head fits behind what was taken. */
  lemma NothingMoreFits(q: Queues, window: nat, lane: Lane)
    ensures !FitsAt(q, window, Drain(q, window).taken, |Drain(q, window).taken|, lane)
  {
    DrainsInTurn(q, 0, window);
    EndOf(q, 0, window, Fresh, Drain(q, window).taken, lane);
  }

  /** A frame of half the window and more can follow a priority frame: the queues alternate frame by frame. */
  lemma MoreThanHalf(p: Frame, f: Frame)
    requires FrameSize(p) == 64 && FrameSize(f) == 8128
    ensures FramesIn(Drain(Queues([p], [f], []), 8192).taken)[..2] == [p, f]
  {
    PriorityThenNormal(Queues([p], [f], []), 8192);
  }
}

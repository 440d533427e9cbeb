/**
 * A run, from a fresh start, in which a node answers its ping in time and is taken out of the
 * routing table all the same.  Its pong arrives when the ping of another node has timed out whose
 * replacement takes over: the update ends with the replacement, and the pong is not credited.
 */
module EvictionTrace {
  import opened Options
  import opened XorMetric
  import opened Sorting
  import opened Buckets
  import opened BucketTable
  import opened Eviction
  import opened EvictionRuns

  // ---------- The run ----------

  const HALF := Up(1, 255)

  /** The local node has the first id of the upper half of the id space. */
  const LOCAL := HALF

  /** The node that is going to answer. */
  const ANSWERING := HALF + 1

  /** The nodes of the lower half that fill a bucket: they differ in their last eight binary digits. */
  function Filling(): (s: seq<nat>)
    ensures |s| == 16
  {
    seq(16, i => if i < 15 then i + 1 else 200)
  }

  const NEWCOMER := 17

  function Pong(wire: nat -> nat): Ping {
    Ping(PingId(wire(1), ANSWERING), 1400, None)
  }

  /** The ping for the least recently seen node of the full bucket. */
  function Check(wire: nat -> nat): Ping {
    Ping(PingId(wire(0), 1), 900, Some(NEWCOMER))
  }

  function Events(wire: nat -> nat): (events: seq<Event>)
    ensures |events| == 6
  {
    [Bootstrap(Filling(), 0), RecvPing(NEWCOMER, 0), RecvNeighbours([ANSWERING], 500), RecvPing(ANSWERING, 600),
     RecvPong(ANSWERING, wire(1), 1000), RecvPing(NEWCOMER, 1401)]
  }

  lemma {:induction false} UpExceeds(j: nat)
    ensures Up(1, j) > j
    decreases j
  {
    if j > 0 {
      UpExceeds(j - 1);
    }
  }

  lemma Ids()
    ensures HALF > 255 && MAX_ID == 2 * HALF - 1
  {
    UpExceeds(255);
  }

  lemma FillingDistinct()
    ensures NoDuplicates(Filling()) && forall n :: n in Filling() ==> 0 < n < 256 && n != NEWCOMER
  {
  }

  lemma EventsAreOk(wire: nat -> nat)
    ensures EventsOk(Events(wire))
  {
    Ids();
    FillingDistinct();
    forall i | 0 <= i < 16 ensures Filling()[i] <= MAX_ID {
      assert Filling()[i] in Filling();
    }
  }

  // ---------- Tables of one and of two buckets ----------

  function OneBucket(nodes: seq<nat>): seq<Bucket> {
    [Bucket(0, MAX_ID, nodes, [])]
  }

  function TwoBuckets(lower: seq<nat>, upper: seq<nat>): seq<Bucket> {
    [Bucket(0, HALF - 1, lower, []), Bucket(HALF, MAX_ID, upper, [])]
  }

  ghost predicate Small(nodes: seq<nat>) {
    NoDuplicates(nodes) && |nodes| <= K_BUCKET_SIZE && forall n :: n in nodes ==> 0 < n < 256
  }

  lemma OneBucketOk(nodes: seq<nat>)
    requires Small(nodes)
    ensures TableOk(OneBucket(nodes), LOCAL) && !Cached(OneBucket(nodes), LOCAL)
    ensures forall id: nat :: id < 256 ==> Lookup(OneBucket(nodes), id) == Some(0)
  {
    Ids();
    InitialTable(LOCAL);
    var empty := [Bucket(0, MAX_ID, [], [])];
    assert BucketOk(empty[0]);
    assert BucketOk(Bucket(0, MAX_ID, nodes, []));
    ReplaceOk(empty, LOCAL, 0, Bucket(0, MAX_ID, nodes, []));
    assert OneBucket(nodes) == empty[0 := Bucket(0, MAX_ID, nodes, [])];
  }

  /** The bucket of the whole id space, split. */
  lemma SplitOne(nodes: seq<nat>)
    requires Small(nodes)
    ensures 0 <= MAX_ID && SplitAt(OneBucket(nodes), 0) == TwoBuckets(nodes, [])
    ensures TableOk(TwoBuckets(nodes, []), LOCAL)
  {
    Ids();
    OneBucketOk(nodes);
    SplitOk(OneBucket(nodes), LOCAL, 0);
    WithinAll(nodes, 0, HALF - 1);
    WithinNone(nodes, HALF, MAX_ID);
    assert Midpoint(OneBucket(nodes)[0]) == HALF - 1;
    assert LowerHalf(OneBucket(nodes)[0]) == TwoBuckets(nodes, [])[0];
    assert UpperHalf(OneBucket(nodes)[0]) == TwoBuckets(nodes, [])[1];
  }

  lemma {:induction false} WithinAll(s: seq<nat>, lo: int, hi: int)
    requires forall n :: n in s ==> lo <= n <= hi
    ensures Within(s, lo, hi) == s
  {
    if s != [] {
      assert s[0] in s && forall n :: n in s[1..] ==> n in s;
      WithinAll(s[1..], lo, hi);
    }
  }

  lemma {:induction false} WithinNone(s: seq<nat>, lo: int, hi: int)
    requires forall n :: n in s ==> n < lo
    ensures Within(s, lo, hi) == []
  {
    if s != [] {
      assert s[0] in s && forall n :: n in s[1..] ==> n in s;
      WithinNone(s[1..], lo, hi);
    }
  }

  /** At most the answering node is in the upper bucket. */
  ghost predicate Few(upper: seq<nat>) {
    upper == [] || upper == [ANSWERING]
  }

  lemma TwoBucketsOk(lower: seq<nat>, upper: seq<nat>)
    requires Small(lower) && Few(upper)
    ensures TableOk(TwoBuckets(lower, upper), LOCAL) && !Cached(TwoBuckets(lower, upper), LOCAL)
    ensures forall id: nat :: id < 256 ==> Lookup(TwoBuckets(lower, upper), id) == Some(0)
    ensures Lookup(TwoBuckets(lower, upper), ANSWERING) == Some(1)
  {
    Ids();
    SplitOne(lower);
    var t := TwoBuckets(lower, []);
    var b := Bucket(HALF, MAX_ID, upper, []);
    assert BucketOk(t[1]);
    assert BucketOk(b);
    ReplaceOk(t, LOCAL, 1, b);
    var t' := TwoBuckets(lower, upper);
    assert t' == t[1 := b];
    assert LookupFrom(t', ANSWERING, 0) == LookupFrom(t', ANSWERING, 1) == Some(1);
  }

  lemma NobodyWaits(lower: seq<nat>, upper: seq<nat>)
    ensures Waiting(TwoBuckets(lower, upper)) == []
  {
    var t := TwoBuckets(lower, upper);
    assert t[1..] == [t[1]] && t[1..][1..] == [];
    assert Waiting(t[1..]) == [] + Waiting([]);
  }

  // ---------- Bootstrapping ----------

  lemma AddToOne(nodes: seq<nat>, id: nat)
    requires Small(nodes) && |nodes| < K_BUCKET_SIZE && id < 256 && id !in nodes
    ensures TableOk(OneBucket(nodes), LOCAL) && id <= MAX_ID
    ensures AddNode(OneBucket(nodes), LOCAL, id) == (OneBucket(nodes + [id]), Added)
  {
    Ids();
    OneBucketOk(nodes);
    var b := Bucket(0, MAX_ID, nodes + [id], []);
    assert AddToBucket(OneBucket(nodes)[0], id) == (b, None);
    assert OneBucket(nodes)[0 := b] == OneBucket(nodes + [id]);
  }

  lemma SmallPrefix(k: nat)
    requires k <= 16
    ensures Small(Filling()[..k]) && (k < 16 ==> Filling()[k] !in Filling()[..k] && 0 < Filling()[k] < 256)
  {
    FillingDistinct();
    assert forall n :: n in Filling()[..k] ==> n in Filling();
  }

  lemma {:induction false} FillOne(k: nat)
    requires k <= 16
    ensures TableOk(OneBucket(Filling()[..k]), LOCAL) && IdsOk(Filling()[k..])
    ensures AddAll(OneBucket(Filling()[..k]), LOCAL, Filling()[k..]) == (OneBucket(Filling()), true)
    decreases 16 - k
  {
    Ids();
    SmallPrefix(k);
    OneBucketOk(Filling()[..k]);
    if k == 16 {
      assert Filling()[k..] == [] && Filling()[..k] == Filling();
    } else {
      var nodes := Filling()[k..];
      AddToOne(Filling()[..k], Filling()[k]);
      assert Filling()[..k + 1] == Filling()[..k] + [Filling()[k]];
      assert nodes[0] == Filling()[k] && nodes[1..] == Filling()[k + 1..];
      FillOne(k + 1);
    }
  }

  // ---------- The full bucket is not split a second time ----------

  lemma ByteShift(n: nat)
    requires n < 256
    ensures Shift(n, 8) == 0 && Shift(n, 7) == n / 128
  {
    assert n / 2 / 2 / 2 / 2 / 2 / 2 / 2 == n / 128;
    assert Shift(n, 7) == Shift(n / 2 / 2, 5) == Shift(n / 2 / 2 / 2 / 2, 3) == Shift(n / 2 / 2 / 2 / 2 / 2 / 2, 1);
    assert Shift(n, 8) == Shift(n / 2 / 2, 6) == Shift(n / 2 / 2 / 2 / 2, 4) == Shift(n / 2 / 2 / 2 / 2 / 2 / 2, 2);
  }

  /** The first 248 binary digits of the ids are the same: a multiple of eight. */
  lemma FillingDepth()
    ensures Depth(Filling()) == 248
  {
    var s := Filling();
    FillingDistinct();
    assert s[0] in s && s[15] in s && s[0] == 1 && s[15] == 200;
    ByteShift(1);
    ByteShift(200);
    forall n | n in s ensures Shift(n, ID_BITS - 248) == Shift(s[0], ID_BITS - 248) {
      ByteShift(n);
    }
    assert Shift(s[15], ID_BITS - 249) != Shift(s[0], ID_BITS - 249);
    forall e | 0 <= e <= 248 ensures SharePrefix(s, e) {
      SharePrefixShorter(s, 248, e);
    }
    DepthFound(s, 0, 248);
  }

  lemma NewcomerWaits()
    ensures TableOk(OneBucket(Filling()), LOCAL) && NEWCOMER <= MAX_ID
    ensures AddNode(OneBucket(Filling()), LOCAL, NEWCOMER) == (TwoBuckets(Filling(), []), Evict(1))
  {
    Ids();
    FillingDistinct();
    FillingDepth();
    SplitOne(Filling());
    OneBucketOk(Filling());
    TwoBucketsOk(Filling(), []);
    assert MaySplit(OneBucket(Filling())[0], LOCAL);
    assert !MaySplit(TwoBuckets(Filling(), [])[0], LOCAL);
    assert Filling()[0] == 1;
    assert AddNode(TwoBuckets(Filling(), []), LOCAL, NEWCOMER) == (TwoBuckets(Filling(), []), Evict(1));
  }

  // ---------- One message after the other ----------

  /** The ids in the lower bucket once the newcomer has replaced node 1, and once it was seen again. */
  function Left(): seq<nat> {
    Filling()[1..] + [NEWCOMER]
  }

  lemma LeftIsSmall()
    ensures Small(Filling()) && Small(Filling()[1..]) && Small(Left()) && NEWCOMER !in Filling()[1..]
    ensures Remove(Left(), NEWCOMER) == Filling()[1..]
  {
    FillingDistinct();
    assert forall n :: n in Filling()[1..] ==> n in Filling();
    RemoveLast(Filling()[1..], NEWCOMER);
  }

  lemma {:induction false} RemoveLast(s: seq<nat>, x: nat)
    requires x !in s
    ensures Remove(s + [x], x) == s
  {
    if s != [] {
      assert (s + [x])[0] == s[0] && (s + [x])[1..] == s[1..] + [x];
      RemoveLast(s[1..], x);
    }
  }

  function Start(): Proto {
    Proto([Bucket(0, MAX_ID, [], [])], [], 0)
  }

  /** A state with two buckets. */
  function State(lower: seq<nat>, upper: seq<nat>, pings: seq<Ping>, sent: nat): Proto {
    Proto(TwoBuckets(lower, upper), pings, sent)
  }

  lemma StateOk(lower: seq<nat>, upper: seq<nat>, pings: seq<Ping>, sent: nat, wire: nat -> nat)
    requires Small(lower) && Few(upper) && pings in {[], [Check(wire)], [Pong(wire)], [Check(wire), Pong(wire)]}
    ensures ProtoOk(State(lower, upper, pings, sent), LOCAL)
    ensures Remote(NEWCOMER, LOCAL) && Remote(ANSWERING, LOCAL)
  {
    Ids();
    TwoBucketsOk(lower, upper);
  }

  /** A node that finds room, in a state in which no ping has timed out. */
  lemma UpdateFindsRoom(s: Proto, wire: nat -> nat, node: nat, now: int, t: seq<Bucket>)
    requires ProtoOk(s, LOCAL) && Remote(node, LOCAL)
    requires Expire(s, 0, node, now) == Through(s)
    requires AddNode(s.buckets, LOCAL, node) == (t, Added) && Waiting(t) == []
    ensures Update(s, LOCAL, wire, node, None, now) == (s.(buckets := t), true)
  {
  }

  lemma AddToLower(lower: seq<nat>, upper: seq<nat>, id: nat, lower': seq<nat>)
    requires Small(lower) && Few(upper) && 0 < id < 256
    requires AddToBucket(TwoBuckets(lower, upper)[0], id) == (Bucket(0, HALF - 1, lower', []), None)
    ensures TableOk(TwoBuckets(lower, upper), LOCAL) && id <= MAX_ID
    ensures AddNode(TwoBuckets(lower, upper), LOCAL, id) == (TwoBuckets(lower', upper), Added)
  {
    Ids();
    TwoBucketsOk(lower, upper);
    assert TwoBuckets(lower, upper)[0 := Bucket(0, HALF - 1, lower', [])] == TwoBuckets(lower', upper);
  }

  lemma NodeOneIsChecked(wire: nat -> nat, s: Proto)
    requires s == Proto(OneBucket(Filling()), [], 0)
    ensures TableOk(s.buckets, LOCAL) && NEWCOMER <= MAX_ID
    ensures Admit(s, LOCAL, wire, NEWCOMER, 0) == (State(Filling(), [], [Check(wire)], 1), true)
  {
    NewcomerWaits();
    NobodyWaits(Filling(), []);
    var s' := s.(buckets := TwoBuckets(Filling(), []));
    assert SendPing(s', wire, 1, Some(NEWCOMER), 0) == State(Filling(), [], [Check(wire)], 1);
  }

  /** Event 0 and 1: the bucket is full, and node 1 is to be checked. */
  lemma NewcomerArrives(wire: nat -> nat)
    ensures ProtoOk(Proto(OneBucket(Filling()), [], 0), LOCAL) && Remote(NEWCOMER, LOCAL)
    ensures Update(Proto(OneBucket(Filling()), [], 0), LOCAL, wire, NEWCOMER, None, 0)
         == (State(Filling(), [], [Check(wire)], 1), true)
  {
    Ids();
    LeftIsSmall();
    OneBucketOk(Filling());
    var s := Proto(OneBucket(Filling()), [], 0);
    assert Expire(s, 0, NEWCOMER, 0) == Through(s);
    NodeOneIsChecked(wire, s);
  }

  /** Event 2: a neighbour is named, and pinged. */
  lemma NeighbourIsPinged(wire: nat -> nat)
    ensures ProtoOk(State(Filling(), [], [Check(wire)], 1), LOCAL) && EventOk(RecvNeighbours([ANSWERING], 500))
    ensures Handle(State(Filling(), [], [Check(wire)], 1), LOCAL, wire, RecvNeighbours([ANSWERING], 500))
         == (State(Filling(), [], [Check(wire), Pong(wire)], 2), true)
  {
    Ids();
    LeftIsSmall();
    StateOk(Filling(), [], [Check(wire)], 1, wire);
    TwoBucketsOk(Filling(), []);
    var s := State(Filling(), [], [Check(wire)], 1);
    assert [ANSWERING][1..] == [];
    assert Unknown(s.buckets, LOCAL, []) == Some([]);
    assert Unknown(s.buckets, LOCAL, [ANSWERING]) == Some([ANSWERING] + []);
    assert [ANSWERING] + [] == [ANSWERING];
    assert [Check(wire)][1..] == [];
    assert Put([Check(wire)], Pong(wire)) == [Check(wire)] + [Pong(wire)] == [Check(wire), Pong(wire)];
    var s' := SendPing(s, wire, ANSWERING, None, 500);
    assert s' == State(Filling(), [], [Check(wire), Pong(wire)], 2);
    assert PingAll(s', wire, [], 500) == s';
    assert PingAll(s, wire, [ANSWERING], 500) == s';
  }

  /** Event 3: it pings, too, and gets into the table. */
  lemma NeighbourIsStored(wire: nat -> nat)
    ensures ProtoOk(State(Filling(), [], [Check(wire), Pong(wire)], 2), LOCAL) && Remote(ANSWERING, LOCAL)
    ensures Update(State(Filling(), [], [Check(wire), Pong(wire)], 2), LOCAL, wire, ANSWERING, None, 600)
         == (State(Filling(), [ANSWERING], [Check(wire), Pong(wire)], 2), true)
  {
    LeftIsSmall();
    StateOk(Filling(), [], [Check(wire), Pong(wire)], 2, wire);
    TwoBucketsOk(Filling(), []);
    var s := State(Filling(), [], [Check(wire), Pong(wire)], 2);
    assert [] + [ANSWERING] == [ANSWERING];
    assert s.buckets[1 := Bucket(HALF, MAX_ID, [ANSWERING], [])] == TwoBuckets(Filling(), [ANSWERING]);
    NobodyWaits(Filling(), [ANSWERING]);
    assert Expire(s, 2, ANSWERING, 600) == Through(s);
    assert Expire(s, 1, ANSWERING, 600) == Through(s);
    UpdateFindsRoom(s, wire, ANSWERING, 600, TwoBuckets(Filling(), [ANSWERING]));
  }

  lemma NodeOneGoes(wire: nat -> nat)
    ensures Expire(State(Filling(), [ANSWERING], [Check(wire), Pong(wire)], 2), 0, ANSWERING, 1000)
         == Replaced(State(Filling()[1..], [ANSWERING], [Pong(wire)], 2), NEWCOMER)
  {
    LeftIsSmall();
    TwoBucketsOk(Filling(), [ANSWERING]);
    var s := State(Filling(), [ANSWERING], [Check(wire), Pong(wire)], 2);
    assert Filling()[0] == 1;
    assert s.buckets[0 := Bucket(0, HALF - 1, Filling()[1..], [])] == TwoBuckets(Filling()[1..], [ANSWERING]);
    assert s.pings[..0] + s.pings[1..] == [Pong(wire)];
  }

  lemma NewcomerTakesOver(wire: nat -> nat)
    ensures ProtoOk(State(Filling()[1..], [ANSWERING], [Pong(wire)], 2), LOCAL) && Remote(NEWCOMER, LOCAL)
    ensures Update(State(Filling()[1..], [ANSWERING], [Pong(wire)], 2), LOCAL, wire, NEWCOMER, None, 1000)
         == (State(Left(), [ANSWERING], [Pong(wire)], 2), true)
  {
    Ids();
    LeftIsSmall();
    StateOk(Filling()[1..], [ANSWERING], [Pong(wire)], 2, wire);
    var s := State(Filling()[1..], [ANSWERING], [Pong(wire)], 2);
    AddToLower(Filling()[1..], [ANSWERING], NEWCOMER, Left());
    NobodyWaits(Left(), [ANSWERING]);
    assert Expire(s, 1, NEWCOMER, 1000) == Through(s);
    UpdateFindsRoom(s, wire, NEWCOMER, 1000, TwoBuckets(Left(), [ANSWERING]));
  }

  /** Event 4: the pong is in time, but the newcomer takes over from node 1. */
  lemma PongIsNotCredited(wire: nat -> nat)
    ensures ProtoOk(State(Filling(), [ANSWERING], [Check(wire), Pong(wire)], 2), LOCAL) && Remote(ANSWERING, LOCAL)
    ensures Update(State(Filling(), [ANSWERING], [Check(wire), Pong(wire)], 2), LOCAL, wire, ANSWERING, Some(PingId(wire(1), ANSWERING)), 1000)
         == (State(Left(), [ANSWERING], [Pong(wire)], 2), true)
  {
    LeftIsSmall();
    StateOk(Filling(), [ANSWERING], [Check(wire), Pong(wire)], 2, wire);
    NodeOneGoes(wire);
    NewcomerTakesOver(wire);
    var s := State(Filling(), [ANSWERING], [Check(wire), Pong(wire)], 2);
    assert Pong(wire) in s.pings;
    FindUnique(s.pings, Pong(wire));
  }

  /** Event 5: the next message after the time-out. */
  lemma AnsweringNodeGoes(wire: nat -> nat)
    ensures ProtoOk(State(Left(), [ANSWERING], [Pong(wire)], 2), LOCAL) && Remote(NEWCOMER, LOCAL)
    ensures Update(State(Left(), [ANSWERING], [Pong(wire)], 2), LOCAL, wire, NEWCOMER, None, 1401)
         == (State(Left(), [], [], 2), true)
  {
    Ids();
    LeftIsSmall();
    StateOk(Left(), [ANSWERING], [Pong(wire)], 2, wire);
    StateOk(Left(), [], [], 2, wire);
    TwoBucketsOk(Left(), [ANSWERING]);
    var s, s1 := State(Left(), [ANSWERING], [Pong(wire)], 2), State(Left(), [], [], 2);
    assert [ANSWERING][1..] == [];
    assert s.buckets[1 := Bucket(HALF, MAX_ID, [], [])] == TwoBuckets(Left(), []);
    assert s.pings[..0] + s.pings[1..] == [];
    assert Expire(s, 0, NEWCOMER, 1401) == Expire(s1, 0, NEWCOMER, 1401) == Through(s1);
    AddToLower(Left(), [], NEWCOMER, Left());
    NobodyWaits(Left(), []);
    assert Admit(s1, LOCAL, wire, NEWCOMER, 1401) == (s1, true);
  }

  // ---------- Main result ----------

  lemma AfterOneMore(wire: nat -> nat, events: seq<Event>, e: Event)
    requires EventsOk(events) && EventOk(e)
    ensures EventsOk(events + [e])
    ensures After(LOCAL, wire, events + [e]) == Handle(After(LOCAL, wire, events), LOCAL, wire, e).0
  {
    assert (events + [e])[..|events|] == events;
  }

  lemma Prefixes(wire: nat -> nat, i: nat)
    requires i < 6
    ensures EventsOk(Events(wire)[..i]) && EventOk(Events(wire)[i]) && EventsOk(Events(wire)[..i + 1])
    ensures Events(wire)[..i + 1] == Events(wire)[..i] + [Events(wire)[i]]
  {
    EventsAreOk(wire);
  }

  /** One event of the run. */
  lemma AfterNext(wire: nat -> nat, i: nat, s: Proto)
    requires i < 6 && EventsOk(Events(wire)[..i]) && After(LOCAL, wire, Events(wire)[..i]) == s
    ensures ProtoOk(s, LOCAL) && EventOk(Events(wire)[i]) && EventsOk(Events(wire)[..i + 1])
    ensures After(LOCAL, wire, Events(wire)[..i + 1]) == Handle(s, LOCAL, wire, Events(wire)[i]).0
  {
    Prefixes(wire, i);
    AfterOneMore(wire, Events(wire)[..i], Events(wire)[i]);
  }

  lemma Bootstrapped(wire: nat -> nat)
    ensures EventsOk(Events(wire)[..1]) && After(LOCAL, wire, Events(wire)[..1]) == Proto(OneBucket(Filling()), [], 0)
  {
    FillOne(0);
    assert Filling()[..0] == [] && Filling()[0..] == Filling();
    AfterNext(wire, 0, Start());
  }

  lemma TwoEvents(wire: nat -> nat)
    ensures EventsOk(Events(wire)[..2])
    ensures After(LOCAL, wire, Events(wire)[..2]) == State(Filling(), [], [Check(wire)], 1)
  {
    Bootstrapped(wire);
    NewcomerArrives(wire);
    AfterNext(wire, 1, Proto(OneBucket(Filling()), [], 0));
  }

  lemma ThreeEvents(wire: nat -> nat)
    ensures EventsOk(Events(wire)[..3])
    ensures After(LOCAL, wire, Events(wire)[..3]) == State(Filling(), [], [Check(wire), Pong(wire)], 2)
  {
    TwoEvents(wire);
    NeighbourIsPinged(wire);
    AfterNext(wire, 2, State(Filling(), [], [Check(wire)], 1));
  }

  lemma FourEvents(wire: nat -> nat)
    ensures EventsOk(Events(wire)[..4])
    ensures After(LOCAL, wire, Events(wire)[..4]) == State(Filling(), [ANSWERING], [Check(wire), Pong(wire)], 2)
  {
    ThreeEvents(wire);
    NeighbourIsStored(wire);
    AfterNext(wire, 3, State(Filling(), [], [Check(wire), Pong(wire)], 2));
  }

  lemma FiveEvents(wire: nat -> nat)
    ensures EventsOk(Events(wire)[..5])
    ensures After(LOCAL, wire, Events(wire)[..5]) == State(Left(), [ANSWERING], [Pong(wire)], 2)
  {
    FourEvents(wire);
    PongIsNotCredited(wire);
    AfterNext(wire, 4, State(Filling(), [ANSWERING], [Check(wire), Pong(wire)], 2));
  }

  lemma SixEvents(wire: nat -> nat)
    ensures EventsOk(Events(wire))
    ensures After(LOCAL, wire, Events(wire)) == State(Left(), [], [], 2)
  {
    FiveEvents(wire);
    AnsweringNodeGoes(wire);
    AfterNext(wire, 5, State(Left(), [ANSWERING], [Pong(wire)], 2));
    assert Events(wire)[..6] == Events(wire);
  }

  lemma InAndOut()
    ensures Stored(TwoBuckets(Left(), [ANSWERING]), ANSWERING) && !Stored(TwoBuckets(Left(), []), ANSWERING)
  {
    Ids();
    LeftIsSmall();
    assert ANSWERING in TwoBuckets(Left(), [ANSWERING])[1].nodes;
    assert ANSWERING !in Left();
  }

  /**
   * The description of the update promises that live nodes are never removed.  In this run, from a
   * fresh start, the pong that answers an outstanding ping comes in before the time-out, and the
   * next message takes the node that sent it out of the table.
   */
  lemma AnsweringNodeEvicted(wire: nat -> nat)
    ensures EventsOk(Events(wire)[..4]) && EventsOk(Events(wire)[..5]) && EventsOk(Events(wire))
    ensures Pong(wire) in After(LOCAL, wire, Events(wire)[..4]).pings
    ensures Events(wire)[4] == RecvPong(Pong(wire).id.node, Pong(wire).id.echo, 1000) && !Expired(Pong(wire), 1000)
    ensures Stored(After(LOCAL, wire, Events(wire)[..5]).buckets, Pong(wire).id.node)
    ensures !Stored(After(LOCAL, wire, Events(wire)).buckets, Pong(wire).id.node)
  {
    FourEvents(wire);
    FiveEvents(wire);
    SixEvents(wire);
    InAndOut();
  }
}

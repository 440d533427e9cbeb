/**
 * What each message does, and the walk over the expected pongs place by place: which are left, in
 * which order, and where it ends.
 */
module MessageOutcome {
  import opened Options
  import opened XorMetric
  import opened Sorting
  import opened Buckets
  import opened BucketTable
  import opened Eviction
  import opened EvictionRuns
  import opened UpdateOutcome

  // ---------- The walk, place by place ----------

  /** The pings that have not timed out, in order. */
  function Unexpired(pings: seq<Ping>, now: int): seq<Ping> {
    if pings == [] then []
    else (if now > pings[0].timeout then [] else [pings[0]]) + Unexpired(pings[1..], now)
  }

  lemma {:induction false} UnexpiredConcat(a: seq<Ping>, b: seq<Ping>, now: int)
    ensures Unexpired(a + b, now) == Unexpired(a, now) + Unexpired(b, now)
    decreases |a|
  {
    if a == [] {
      assert a + b == b;
    } else {
      assert (a + b)[1..] == a[1..] + b;
      UnexpiredConcat(a[1..], b, now);
    }
  }

  lemma UnexpiredLast(pings: seq<Ping>, k: nat, now: int)
    requires k < |pings|
    ensures Unexpired(pings[..k + 1], now) == Unexpired(pings[..k], now) + if now > pings[k].timeout then [] else [pings[k]]
  {
    assert pings[..k + 1] == pings[..k] + [pings[k]];
    UnexpiredConcat(pings[..k], [pings[k]], now);
    assert [pings[k]][1..] == [];
  }

  /** The ping ends the walk: its node cannot be looked up, it waits with a replacement, or it was sent to the sender. */
  predicate EndsWalk(buckets: seq<Bucket>, p: Ping, node: nat) {
    Lookup(buckets, p.id.node) == None || p.replacement != None || p.id.node == node
  }

  /** The walk has come from `s`, whose first `k` pings it has seen, to `s1`, where it stands at place `i`. */
  ghost predicate WalkedSoFar(s: Proto, s1: Proto, k: nat, i: nat, node: nat, now: int) {
    && k <= |s.pings| && i <= |s1.pings| && s1.pings == Unexpired(s.pings[..k], now) + s.pings[k..] && i == |Unexpired(s.pings[..k], now)|
    && s1.sent == s.sent && (forall id :: Lookup(s1.buckets, id) == Lookup(s.buckets, id))
    && forall j :: 0 <= j < k && now > s.pings[j].timeout ==> !EndsWalk(s.buckets, s.pings[j], node)
  }

  lemma AtPlace(s: Proto, s1: Proto, k: nat, i: nat, node: nat, now: int)
    requires WalkedSoFar(s, s1, k, i, node, now) && k < |s.pings|
    ensures i < |s1.pings| && s1.pings[i] == s.pings[k]
    ensures s1.pings[..i] + s1.pings[i + 1..] == Unexpired(s.pings[..k], now) + s.pings[k + 1..]
  {
  }

  lemma WalkedPast(s: Proto, s1: Proto, k: nat, i: nat, node: nat, now: int)
    requires WalkedSoFar(s, s1, k, i, node, now) && k < |s.pings| && now <= s.pings[k].timeout
    ensures WalkedSoFar(s, s1, k + 1, i + 1, node, now)
  {
    UnexpiredLast(s.pings, k, now);
    assert s.pings[k..] == [s.pings[k]] + s.pings[k + 1..];
    AtPlace(s, s1, k, i, node, now);
  }

  lemma WalkedOver(s: Proto, s1: Proto, k: nat, i: nat, node: nat, now: int)
    requires WalkedSoFar(s, s1, k, i, node, now) && k < |s.pings| && now > s.pings[k].timeout
    requires !EndsWalk(s.buckets, s.pings[k], node)
    ensures i < |s1.pings|
    ensures WalkedSoFar(s, Without(s1, i).(buckets := RemoveNode(s1.buckets, s.pings[k].id.node).0), k + 1, i, node, now)
  {
    UnexpiredLast(s.pings, k, now);
    AtPlace(s, s1, k, i, node, now);
    assert Unexpired(s.pings[..k], now) + [] == Unexpired(s.pings[..k], now);
    forall id ensures Lookup(RemoveNode(s1.buckets, s.pings[k].id.node).0, id) == Lookup(s.buckets, id) {
      RemovalKeepsLookup(s1.buckets, s.pings[k].id.node, id);
    }
  }

  /** How the walk ends, told by the pings it started with; `k` is the place of the ping that ends it. */
  ghost predicate WalkEnds(s: Proto, node: nat, now: int, end: LoopEnd, k: nat) {
    && k <= |s.pings| && end.state.sent == s.sent
    && (forall j :: 0 <= j < k && now > s.pings[j].timeout ==> !EndsWalk(s.buckets, s.pings[j], node))
    && if k == |s.pings| then end.Through? && end.state.pings == Unexpired(s.pings, now)
       else
         var p := s.pings[k];
         && now > p.timeout && end.state.pings == Unexpired(s.pings[..k], now) + s.pings[k + 1..]
         && if Lookup(s.buckets, p.id.node) == None then end.Failed?
            else if p.replacement != None then end == Replaced(end.state, p.replacement.value)
            else p.id.node == node && end.Stopped?
  }

  lemma {:induction false} WalkFrom(s: Proto, s1: Proto, k: nat, i: nat, node: nat, now: int) returns (k': nat)
    requires WalkedSoFar(s, s1, k, i, node, now)
    ensures WalkEnds(s, node, now, Expire(s1, i, node, now), k')
    decreases |s.pings| - k
  {
    if k == |s.pings| {
      assert s.pings[..k] == s.pings && s1.pings == Unexpired(s.pings, now);
      k' := k;
    } else {
      AtPlace(s, s1, k, i, node, now);
      var p := s.pings[k];
      if now <= p.timeout {
        WalkedPast(s, s1, k, i, node, now);
        k' := WalkFrom(s, s1, k + 1, i + 1, node, now);
      } else if !EndsWalk(s.buckets, p, node) {
        WalkedOver(s, s1, k, i, node, now);
        k' := WalkFrom(s, Without(s1, i).(buckets := RemoveNode(s1.buckets, p.id.node).0), k + 1, i, node, now);
      } else {
        k' := k;
      }
    }
  }

  /**
   * The walk over the expected pongs: it works off the pings that timed out in the order in which they
   * were sent, up to the first one that ends it; the others stay, in order.
   */
  lemma WalkIs(s: Proto, node: nat, now: int) returns (k: nat)
    ensures WalkEnds(s, node, now, Expire(s, 0, node, now), k)
  {
    assert s.pings[..0] == [] && [] + s.pings[0..] == s.pings;
    k := WalkFrom(s, s, 0, 0, node, now);
  }

  // ---------- Crediting ----------

  lemma {:induction false} DropIs(pings: seq<Ping>, k: nat)
    requires UniqueIds(pings) && k < |pings|
    ensures Find(pings, pings[k].id) == Some(pings[k]) && Drop(pings, pings[k].id) == pings[..k] + pings[k + 1..]
    decreases k
  {
    DropAt(pings, k);
    FindUnique(pings, pings[k]);
  }

  /** A credited pong: its ping is taken out, and the replacement goes behind those its bucket has. */
  lemma CreditIs(s: Proto, k: nat)
    requires UniqueIds(s.pings) && k < |s.pings|
    ensures var p := s.pings[k];
            var left := s.pings[..k] + s.pings[k + 1..];
            Credit(s, Some(p.id)) ==
              if p.replacement == None then (s.(pings := left), true)
              else
                match Lookup(s.buckets, p.replacement.value)
                case None => (s, false)
                case Some(i) =>
                  var b := s.buckets[i];
                  (Proto(s.buckets[i := Bucket(b.start, b.end, b.nodes, b.cache + [p.replacement.value])], left, s.sent), true)
  {
    DropIs(s.pings, k);
  }

  // ---------- Sending a ping ----------

  lemma {:induction false} PutNew(pings: seq<Ping>, p: Ping)
    requires forall q :: q in pings ==> q.id != p.id
    ensures Put(pings, p) == pings + [p]
    decreases |pings|
  {
    if pings != [] {
      assert pings[0] in pings;
      PutNew(pings[1..], p);
    }
  }

  lemma {:induction false} PutAgain(pings: seq<Ping>, p: Ping, k: nat)
    requires UniqueIds(pings) && k < |pings| && pings[k].id == p.id
    ensures Put(pings, p) == pings[k := p]
    decreases k
  {
    if k > 0 {
      assert pings[0].id != pings[k].id;
      PutAgain(pings[1..], p, k - 1);
    }
  }

  /**
   * A ping is expected back within 900 milliseconds. It comes behind the pings sent before; one with the
   * echo and node of an outstanding ping takes its place instead.
   */
  lemma SendPingIs(s: Proto, wire: nat -> nat, node: nat, replacement: Option<nat>, now: int)
    requires UniqueIds(s.pings)
    ensures var p := Ping(PingId(wire(s.sent), node), now + 900, replacement);
            var s' := SendPing(s, wire, node, replacement, now);
            && s'.buckets == s.buckets && s'.sent == s.sent + 1
            && ((forall q :: q in s.pings ==> q.id != p.id) ==> s'.pings == s.pings + [p])
            && forall k :: 0 <= k < |s.pings| && s.pings[k].id == p.id ==> s'.pings == s.pings[k := p]
  {
    var p := Ping(PingId(wire(s.sent), node), now + 900, replacement);
    if k :| 0 <= k < |s.pings| && s.pings[k].id == p.id {
      PutAgain(s.pings, p, k);
    } else {
      PutNew(s.pings, p);
    }
  }

  /** The pings that go to `nodes`, one after the other, when so many were sent before. */
  ghost function PingsTo(wire: nat -> nat, sent: nat, nodes: seq<nat>, now: int): seq<Ping> {
    seq(|nodes|, i requires 0 <= i < |nodes| => Ping(PingId(wire(sent + i), nodes[i]), now + 900, None))
  }

  /** The echoes used from now on are all different, and no outstanding ping carries one. */
  ghost predicate FreshEchoes(wire: nat -> nat, sent: nat, pings: seq<Ping>) {
    && (forall j, k :: sent <= j < k ==> wire(j) != wire(k))
    && forall p, k :: p in pings && k >= sent ==> p.id.echo != wire(k)
  }

  lemma FreshStays(wire: nat -> nat, sent: nat, pings: seq<Ping>, p: Ping)
    requires UniqueIds(pings) && FreshEchoes(wire, sent, pings) && p.id.echo == wire(sent)
    ensures UniqueIds(pings + [p]) && FreshEchoes(wire, sent + 1, pings + [p])
    ensures forall q :: q in pings ==> q.id != p.id
  {
  }

  /** A ping with a fresh echo comes last. */
  lemma {:induction false} OneMorePing(s: Proto, wire: nat -> nat, node: nat, replacement: Option<nat>, now: int)
    requires UniqueIds(s.pings) && FreshEchoes(wire, s.sent, s.pings)
    ensures var p := Ping(PingId(wire(s.sent), node), now + 900, replacement);
            && SendPing(s, wire, node, replacement, now) == Proto(s.buckets, s.pings + [p], s.sent + 1)
            && UniqueIds(s.pings + [p]) && FreshEchoes(wire, s.sent + 1, s.pings + [p])
  {
    FreshStays(wire, s.sent, s.pings, Ping(PingId(wire(s.sent), node), now + 900, replacement));
    SendPingIs(s, wire, node, replacement, now);
  }

  lemma PingsToStep(wire: nat -> nat, sent: nat, nodes: seq<nat>, now: int, pings: seq<Ping>)
    requires nodes != []
    ensures (pings + [Ping(PingId(wire(sent), nodes[0]), now + 900, None)]) + PingsTo(wire, sent + 1, nodes[1..], now)
         == pings + PingsTo(wire, sent, nodes, now)
  {
  }

  lemma {:induction false} PingAllIs(s: Proto, wire: nat -> nat, nodes: seq<nat>, now: int)
    requires UniqueIds(s.pings) && FreshEchoes(wire, s.sent, s.pings)
    ensures PingAll(s, wire, nodes, now) == Proto(s.buckets, s.pings + PingsTo(wire, s.sent, nodes, now), s.sent + |nodes|)
    decreases |nodes|
  {
    if nodes == [] {
      assert s.pings + [] == s.pings;
    } else {
      OneMorePing(s, wire, nodes[0], None, now);
      PingAllIs(SendPing(s, wire, nodes[0], None, now), wire, nodes[1..], now);
      PingsToStep(wire, s.sent, nodes, now, s.pings);
    }
  }

  lemma {:induction false} WaitingOne(b: Bucket)
    ensures Waiting([b]) == if |b.nodes| < 16 then b.cache else []
  {
    assert [b][1..] == [] && Waiting([]) == [];
  }

  /** The replacements there is room for come bucket by bucket. */
  lemma {:induction false} WaitingIs(buckets: seq<Bucket>, rest: seq<Bucket>)
    ensures Waiting(buckets + rest) == Waiting(buckets) + Waiting(rest)
    decreases |buckets|
  {
    if buckets == [] {
      assert buckets + rest == rest;
    } else {
      assert (buckets + rest)[1..] == buckets[1..] + rest;
      WaitingIs(buckets[1..], rest);
    }
  }

  lemma {:induction false} AdmitIs(s: Proto, local: nat, wire: nat -> nat, node: nat, now: int, t: seq<Bucket>, outcome: Outcome, s': Proto, r: Proto)
    requires ProtoOk(s, local) && Remote(node, local) && AddNode(s.buckets, local, node) == (t, outcome) && outcome != Raised
    requires s' == if outcome.Evict? then SendPing(Proto(t, s.pings, s.sent), wire, outcome.candidate, Some(node), now) else Proto(t, s.pings, s.sent)
    requires r == PingAll(s', wire, Waiting(t), now)
    ensures Admit(s, local, wire, node, now) == (r, true)
  {
  }

  lemma {:induction false} CheckAndAll(t: seq<Bucket>, pings: seq<Ping>, sent: nat, wire: nat -> nat, node: nat, p: Ping, now: int, nodes: seq<nat>)
    returns (s': Proto)
    requires UniqueIds(pings) && FreshEchoes(wire, sent, pings)
    requires p == Ping(PingId(wire(sent), p.id.node), now + 900, Some(node))
    ensures s' == SendPing(Proto(t, pings, sent), wire, p.id.node, Some(node), now)
    ensures PingAll(s', wire, nodes, now) == Proto(t, (pings + [p]) + PingsTo(wire, sent + 1, nodes, now), sent + 1 + |nodes|)
  {
    s' := SendPing(Proto(t, pings, sent), wire, p.id.node, Some(node), now);
    OneMorePing(Proto(t, pings, sent), wire, p.id.node, Some(node), now);
    PingAllIs(s', wire, nodes, now);
  }

  /** A node was added: a ping to each replacement there is room for. */
  lemma {:induction false} AddedSends(s: Proto, local: nat, wire: nat -> nat, node: nat, now: int, t: seq<Bucket>, r: Proto)
    requires ProtoOk(s, local) && Remote(node, local) && FreshEchoes(wire, s.sent, s.pings)
    requires AddNode(s.buckets, local, node) == (t, Added)
    requires r == Proto(t, s.pings + PingsTo(wire, s.sent, Waiting(t), now), s.sent + |Waiting(t)|)
    ensures Admit(s, local, wire, node, now) == (r, true)
  {
    PingAllIs(Proto(t, s.pings, s.sent), wire, Waiting(t), now);
    AdmitIs(s, local, wire, node, now, t, Added, Proto(t, s.pings, s.sent), r);
  }

  /**
   * The bucket is full: first a ping `p` to its least recently seen node, with the sender as
   * replacement, then one to each replacement there is room for elsewhere.
   */
  lemma {:induction false} RefusedSends(s: Proto, local: nat, wire: nat -> nat, node: nat, now: int, t: seq<Bucket>, p: Ping, r: Proto)
    requires ProtoOk(s, local) && Remote(node, local) && FreshEchoes(wire, s.sent, s.pings)
    requires AddNode(s.buckets, local, node) == (t, Evict(p.id.node))
    requires p == Ping(PingId(wire(s.sent), p.id.node), now + 900, Some(node))
    requires r == Proto(t, (s.pings + [p]) + PingsTo(wire, s.sent + 1, Waiting(t), now), s.sent + 1 + |Waiting(t)|)
    ensures Admit(s, local, wire, node, now) == (r, true)
  {
    var s' := CheckAndAll(t, s.pings, s.sent, wire, node, p, now, Waiting(t));
    AdmitIs(s, local, wire, node, now, t, Evict(p.id.node), s', r);
  }

  // ---------- One message ----------

  /** A ping or a request for nodes: an update for its sender, as told by `UpdateEnds`. */
  lemma MessageEnds(s: Proto, local: nat, wire: nat -> nat, e: Event) returns (m: nat)
    requires ProtoOk(s, local) && EventOk(e) && (e.RecvPing? || e.RecvFindNode?) && e.remote != local
    requires Handle(s, local, wire, e).1 && EchoUsedUp(wire, s.sent + 1, wire(s.sent))
    ensures m == e.remote || TakesOver(s.pings, m, e.now)
    ensures Completed(s, Handle(s, local, wire, e).0, wire, m, e.now) || HeldUp(s, Handle(s, local, wire, e).0, m, e.now)
  {
    m := UpdateEnds(s, local, wire, e.remote, None, e.now);
  }

  /** A pong that answers an outstanding ping: the same. */
  lemma PongEnds(s: Proto, local: nat, wire: nat -> nat, p: Ping, now: int) returns (m: nat)
    requires ProtoOk(s, local) && p in s.pings
    requires EventOk(RecvPong(p.id.node, p.id.echo, now)) && Handle(s, local, wire, RecvPong(p.id.node, p.id.echo, now)).1
    requires EchoUsedUp(wire, s.sent + 1, wire(s.sent))
    ensures m == p.id.node || TakesOver(s.pings, m, now)
    ensures Completed(s, Handle(s, local, wire, RecvPong(p.id.node, p.id.echo, now)).0, wire, m, now)
         || HeldUp(s, Handle(s, local, wire, RecvPong(p.id.node, p.id.echo, now)).0, m, now)
  {
    assert PingOk(p, local);
    FindUnique(s.pings, p);
    m := UpdateEnds(s, local, wire, p.id.node, Some(p.id), now);
  }

  /** Messages without effect: from the local node itself, and a pong nobody waits for. Of the first, a pong is an exception. */
  lemma WithoutEffect(s: Proto, local: nat, wire: nat -> nat, remote: nat, echo: nat, now: int)
    requires ProtoOk(s, local) && remote <= MAX_ID && local <= MAX_ID
    ensures Handle(s, local, wire, RecvPing(local, now)) == (s, true) && Handle(s, local, wire, RecvFindNode(local, now)) == (s, true)
    ensures Handle(s, local, wire, RecvPong(local, echo, now)) == (s, false)
    ensures remote != local && (forall p :: p in s.pings ==> p.id != PingId(echo, remote)) ==>
            Handle(s, local, wire, RecvPong(remote, echo, now)) == (s, true)
  {
  }

  /** How many of the listed nodes are neither local nor in the table; a node listed twice counts twice. */
  ghost function UnknownCount(buckets: seq<Bucket>, local: nat, nodes: seq<nat>): nat {
    if nodes == [] then 0
    else (if nodes[0] != local && !Stored(buckets, nodes[0]) then 1 else 0) + UnknownCount(buckets, local, nodes[1..])
  }

  lemma {:induction false} UnknownLength(buckets: seq<Bucket>, local: nat, nodes: seq<nat>)
    requires TableOk(buckets, local) && IdsOk(nodes) && Unknown(buckets, local, nodes).Some?
    ensures |Unknown(buckets, local, nodes).value| == UnknownCount(buckets, local, nodes)
    decreases |nodes|
  {
    if nodes != [] {
      UnknownLength(buckets, local, nodes[1..]);
      if nodes[0] != local {
        StoredIsFound(buckets, local, nodes[0]);
      }
    }
  }

  lemma {:induction false} PingAllSends(s: Proto, wire: nat -> nat, nodes: seq<nat>, now: int)
    ensures PingAll(s, wire, nodes, now).sent == s.sent + |nodes| && PingAll(s, wire, nodes, now).buckets == s.buckets
    decreases |nodes|
  {
    if nodes != [] {
      PingAllSends(SendPing(s, wire, nodes[0], None, now), wire, nodes[1..], now);
    }
  }

  /** A list of neighbours: one ping for each that is neither local nor known, and the table stays. */
  lemma NeighboursCounted(s: Proto, local: nat, wire: nat -> nat, nodes: seq<nat>, now: int)
    requires ProtoOk(s, local) && IdsOk(nodes) && Handle(s, local, wire, RecvNeighbours(nodes, now)).1
    ensures var s' := Handle(s, local, wire, RecvNeighbours(nodes, now)).0;
            s'.sent == s.sent + UnknownCount(s.buckets, local, nodes) && s'.buckets == s.buckets
  {
    UnknownLength(s.buckets, local, nodes);
    PingAllSends(s, wire, Unknown(s.buckets, local, nodes).value, now);
  }

  /** It is an exception exactly when a bucket ends with one of the nodes other than the local one. */
  lemma {:induction false} UnknownRaisesIff(buckets: seq<Bucket>, local: nat, nodes: seq<nat>)
    requires TableOk(buckets, local) && IdsOk(nodes)
    ensures Unknown(buckets, local, nodes).None? <==> exists i :: 0 <= i < |nodes| && nodes[i] != local && EndsBucket(buckets, nodes[i])
    decreases |nodes|
  {
    if nodes != [] {
      LookupSucceedsIff(buckets, local, nodes[0]);
      UnknownRaisesIff(buckets, local, nodes[1..]);
      if i :| 0 <= i < |nodes| && nodes[i] != local && EndsBucket(buckets, nodes[i]) {
        assert i > 0 ==> nodes[1..][i - 1] == nodes[i];
      }
      if i :| 0 <= i < |nodes[1..]| && nodes[1..][i] != local && EndsBucket(buckets, nodes[1..][i]) {
        assert nodes[i + 1] == nodes[1..][i];
      }
    }
  }

  /** Which nodes of a list are neither local nor known is decided one by one, in order. */
  lemma {:induction false} UnknownInOrder(buckets: seq<Bucket>, local: nat, nodes: seq<nat>, n: nat)
    requires TableOk(buckets, local) && IdsOk(nodes) && n <= MAX_ID && Unknown(buckets, local, nodes + [n]).Some?
    ensures Unknown(buckets, local, nodes).Some?
    ensures Unknown(buckets, local, nodes + [n]).value
         == Unknown(buckets, local, nodes).value + if n != local && !Stored(buckets, n) then [n] else []
    decreases |nodes|
  {
    if nodes == [] {
      assert [] + [n] == [n] && [n][1..] == [];
      if n != local {
        StoredIsFound(buckets, local, n);
      }
    } else {
      assert (nodes + [n])[1..] == nodes[1..] + [n];
      UnknownInOrder(buckets, local, nodes[1..], n);
    }
  }
}

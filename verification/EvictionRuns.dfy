/**
 * Runs of the eviction protocol: what takes a node out of the routing table, and when an answer
 * keeps it in.
 */
module EvictionRuns {
  import opened Options
  import opened XorMetric
  import opened Sorting
  import opened Buckets
  import opened BucketTable
  import opened Eviction

  // ---------- The effect of one update ----------

  /** The table gains at most `m`, which becomes the newest; it loses only nodes whose pings timed out. */
  ghost predicate AddsOnly(s: Proto, s': Proto, m: nat, now: int) {
    && (forall n :: Stored(s'.buckets, n) ==> Stored(s.buckets, n) || n == m)
    && (forall n :: Stored(s.buckets, n) && !Stored(s'.buckets, n) ==> TimedOut(s.pings, n, now))
    && (forall x, y :: Older(s'.buckets, x, y) ==> Older(s.buckets, x, y) || y == m)
    && OnlyNewPings(s.pings, s'.pings, now)
  }

  lemma CreditEffect(s: Proto, local: nat, pid: Option<PingId>)
    requires ProtoOk(s, local)
    ensures var s' := Credit(s, pid).0;
            && (forall p :: p in s'.pings ==> p in s.pings)
            && (forall n :: Stored(s'.buckets, n) <==> Stored(s.buckets, n))
            && (forall x, y :: Older(s'.buckets, x, y) <==> Older(s.buckets, x, y))
  {
    var s' := Credit(s, pid).0;
    if pid.Some? {
      DropMembers(s.pings, pid.value);
    }
    assert |s'.buckets| == |s.buckets| && forall i :: 0 <= i < |s.buckets| ==> s'.buckets[i].nodes == s.buckets[i].nodes;
  }

  lemma AdmitEffect(s: Proto, local: nat, wire: nat -> nat, node: nat, now: int)
    requires ProtoOk(s, local) && Remote(node, local)
    ensures AddsOnly(s, Admit(s, local, wire, node, now).0, node, now)
    ensures forall n :: Stored(s.buckets, n) ==> Stored(Admit(s, local, wire, node, now).0.buckets, n)
  {
    AdmitKeeps(s, local, wire, node, now);
    var t := AddNode(s.buckets, local, node).0;
    forall n ensures Stored(s.buckets, n) ==> Stored(t, n)
             ensures Stored(t, n) ==> Stored(s.buckets, n) || n == node {
      AddStores(s.buckets, local, node, n);
    }
    forall x, y | Older(t, x, y) && y != node ensures Older(s.buckets, x, y) {
      AddKeepsOrder(s.buckets, local, node, x, y);
    }
  }

  lemma EvictsThenAdds(s: Proto, m: Proto, e: Proto, n: nat, now: int)
    requires Evicts(s, m, now) && AddsOnly(m, e, n, now)
    ensures AddsOnly(s, e, n, now)
  {
    forall k | Stored(s.buckets, k) && !Stored(e.buckets, k) ensures TimedOut(s.pings, k, now) {
      if Stored(m.buckets, k) {
        var p :| p in m.pings && p.id.node == k && Expired(p, now);
        assert p in s.pings;
      }
    }
  }

  lemma CreditThenAdds(s: Proto, m: Proto, e: Proto, n: nat, now: int)
    requires forall p :: p in m.pings ==> p in s.pings
    requires forall n :: Stored(m.buckets, n) <==> Stored(s.buckets, n)
    requires forall x, y :: Older(m.buckets, x, y) <==> Older(s.buckets, x, y)
    requires AddsOnly(m, e, n, now)
    ensures AddsOnly(s, e, n, now)
  {
    forall k | Stored(s.buckets, k) && !Stored(e.buckets, k) ensures TimedOut(s.pings, k, now) {
      var p :| p in m.pings && p.id.node == k && Expired(p, now);
      assert p in s.pings;
    }
  }

  lemma NothingChanges(s: Proto, m: nat, now: int)
    ensures AddsOnly(s, s, m, now)
  {
  }

  /**
   * Whatever an update does, it puts at most one node into the table, the sender or a replacement
   * that takes over, and it takes out only nodes whose pings timed out.
   */
  lemma {:induction false} UpdateEffect(s: Proto, local: nat, wire: nat -> nat, node: nat, pid: Option<PingId>, now: int)
    returns (m: nat)
    requires ProtoOk(s, local) && node <= MAX_ID
    ensures m == node || TakesOver(s.pings, m, now)
    ensures AddsOnly(s, Update(s, local, wire, node, pid, now).0, m, now)
    decreases |s.pings|
  {
    m := node;
    NothingChanges(s, m, now);
    if node != local && !(pid.Some? && Find(s.pings, pid.value).None?) {
      ExpireKeeps(s, local, 0, node, now);
      ExpireEvicts(s, local, 0, node, now);
      var s1 := Expire(s, 0, node, now).state;
      NothingChanges(s1, m, now);
      EvictsThenAdds(s, s1, s1, m, now);
      if Expire(s, 0, node, now).Replaced? {
        var r := Expire(s, 0, node, now).successor;
        m := UpdateEffect(s1, local, wire, r, None, now);
        EvictsThenAdds(s, s1, Update(s1, local, wire, r, None, now).0, m, now);
        if m != r {
          var p :| p in s1.pings && p.replacement == Some(m) && Expired(p, now);
          assert p in s.pings;
        }
      } else if Expire(s, 0, node, now).Through? {
        CreditKeeps(s1, local, pid);
        CreditEffect(s1, local, pid);
        var s2 := Credit(s1, pid).0;
        NothingChanges(s2, m, now);
        CreditThenAdds(s1, s2, s2, m, now);
        EvictsThenAdds(s, s1, s2, m, now);
        if Credit(s1, pid).1 {
          var s3 := Admit(s2, local, wire, node, now).0;
          AdmitEffect(s2, local, wire, node, now);
          CreditThenAdds(s1, s2, s3, m, now);
          EvictsThenAdds(s, s1, s3, m, now);
        }
      }
    }
  }

  // ---------- When an answer counts ----------

  /** A timed-out ping that ends an update before the sender is looked at. */
  predicate Stops(buckets: seq<Bucket>, p: Ping, node: nat) {
    Lookup(buckets, p.id.node).None? || p.replacement.Some? || p.id.node == node
  }

  ghost predicate NoneStops(s: Proto, i: nat, node: nat, now: int)
    requires i <= |s.pings|
  {
    forall p :: p in s.pings[i..] && Expired(p, now) ==> !Stops(s.buckets, p, node)
  }

  lemma {:induction false} ExpireThroughIff(s: Proto, i: nat, node: nat, now: int)
    requires i <= |s.pings|
    ensures Expire(s, i, node, now).Through? <==> NoneStops(s, i, node, now)
    decreases |s.pings| - i
  {
    if i < |s.pings| {
      var p := s.pings[i];
      assert s.pings[i..] == [p] + s.pings[i + 1..];
      var (buckets, ok) := RemoveNode(s.buckets, p.id.node);
      var s' := Without(s, i).(buckets := buckets);
      if !Expired(p, now) {
        ExpireThroughIff(s, i + 1, node, now);
      } else if !Stops(s.buckets, p, node) {
        ExpireThroughIff(s', i, node, now);
        assert s'.pings[i..] == s.pings[i + 1..];
        forall q: Ping ensures Stops(buckets, q, node) <==> Stops(s.buckets, q, node) {
          RemovalKeepsLookup(s.buckets, p.id.node, q.id.node);
        }
      }
    }
  }

  /** The echoes of later pings differ from this one. */
  ghost predicate EchoUsedUp(wire: nat -> nat, sent: nat, echo: nat) {
    forall k :: k >= sent ==> wire(k) != echo
  }

  lemma SendPingKeepsOther(s: Proto, local: nat, wire: nat -> nat, node: nat, replacement: Option<nat>, now: int, id: PingId)
    requires UniqueIds(s.pings) && EchoUsedUp(wire, s.sent, id.echo)
    ensures var s' := SendPing(s, wire, node, replacement, now);
            && UniqueIds(s'.pings) && EchoUsedUp(wire, s'.sent, id.echo)
            && forall p: Ping :: p.id == id ==> (p in s'.pings <==> p in s.pings)
  {
    PutMembers(s.pings, Ping(PingId(wire(s.sent), node), now + REQUEST_TIMEOUT, replacement));
  }

  lemma {:induction false} PingAllKeepsOther(s: Proto, local: nat, wire: nat -> nat, nodes: seq<nat>, now: int, id: PingId)
    requires UniqueIds(s.pings) && EchoUsedUp(wire, s.sent, id.echo)
    ensures forall p: Ping :: p.id == id ==> (p in PingAll(s, wire, nodes, now).pings <==> p in s.pings)
    decreases |nodes|
  {
    if nodes != [] {
      SendPingKeepsOther(s, local, wire, nodes[0], None, now, id);
      PingAllKeepsOther(SendPing(s, wire, nodes[0], None, now), local, wire, nodes[1..], now, id);
    }
  }

  lemma AdmitKeepsOther(s: Proto, local: nat, wire: nat -> nat, node: nat, now: int, id: PingId)
    requires ProtoOk(s, local) && node <= MAX_ID && EchoUsedUp(wire, s.sent, id.echo)
    ensures forall p: Ping :: p.id == id ==> (p in Admit(s, local, wire, node, now).0.pings <==> p in s.pings)
  {
    var (buckets, outcome) := AddNode(s.buckets, local, node);
    var s' := s.(buckets := buckets);
    if outcome.Evict? {
      SendPingKeepsOther(s', local, wire, outcome.candidate, Some(node), now, id);
      PingAllKeepsOther(SendPing(s', wire, outcome.candidate, Some(node), now), local, wire, Waiting(buckets), now, id);
    } else if outcome.Added? {
      PingAllKeepsOther(s', local, wire, Waiting(buckets), now, id);
    }
  }

  lemma {:induction false} ExpireSendsNothing(s: Proto, i: nat, node: nat, now: int)
    requires i <= |s.pings|
    ensures Expire(s, i, node, now).state.sent == s.sent
    decreases |s.pings| - i
  {
    if i < |s.pings| {
      if !Expired(s.pings[i], now) {
        ExpireSendsNothing(s, i + 1, node, now);
      } else {
        ExpireSendsNothing(Without(s, i).(buckets := RemoveNode(s.buckets, s.pings[i].id.node).0), i, node, now);
      }
    }
  }

  /** An update for a node that sent no pong leaves the pings alone that did not time out. */
  lemma {:induction false} PingStays(s: Proto, local: nat, wire: nat -> nat, node: nat, now: int, p: Ping)
    requires ProtoOk(s, local) && node <= MAX_ID && p in s.pings && !Expired(p, now) && EchoUsedUp(wire, s.sent, p.id.echo)
    ensures p in Update(s, local, wire, node, None, now).0.pings
    decreases |s.pings|
  {
    if node != local {
      ExpireKeeps(s, local, 0, node, now);
      ExpireEvicts(s, local, 0, node, now);
      ExpireSendsNothing(s, 0, node, now);
      match Expire(s, 0, node, now)
      case Replaced(s1, r) => PingStays(s1, local, wire, r, now, p);
      case Through(s1) => AdmitKeepsOther(s1, local, wire, node, now, p.id);
      case _ =>
    }
  }

  /** Nothing that timed out gets in the way, and the replacement, if any, can be looked up. */
  ghost predicate Unhindered(s: Proto, p: Ping, now: int) {
    && NoneStops(s, 0, p.id.node, now)
    && (p.replacement.Some? ==> Lookup(s.buckets, p.replacement.value).Some?)
  }

  lemma FindUnique(pings: seq<Ping>, p: Ping)
    requires UniqueIds(pings) && p in pings
    ensures Find(pings, p.id) == Some(p)
  {
    var i :| 0 <= i < |pings| && pings[i] == p;
    var q := Find(pings, p.id).value;
    var j :| 0 <= j < |pings| && pings[j] == q;
  }

  /** What is left of an update once no timed-out ping stops it. */
  lemma UpdateGoesThrough(s: Proto, local: nat, wire: nat -> nat, p: Ping, now: int) returns (s1: Proto)
    requires ProtoOk(s, local) && p in s.pings && !Expired(p, now) && NoneStops(s, 0, p.id.node, now)
    ensures s1 == Expire(s, 0, p.id.node, now).state
    ensures ProtoOk(s1, local) && p in s1.pings && s1.sent == s.sent && Evicts(s, s1, now)
    ensures Find(s1.pings, p.id) == Some(p) && PingOk(p, local) && ProtoOk(Credit(s1, Some(p.id)).0, local)
    ensures Update(s, local, wire, p.id.node, Some(p.id), now) ==
            var (s2, ok) := Credit(s1, Some(p.id));
            if !ok then (s2, false) else Admit(s2, local, wire, p.id.node, now)
  {
    assert PingOk(p, local);
    ExpireKeeps(s, local, 0, p.id.node, now);
    ExpireEvicts(s, local, 0, p.id.node, now);
    ExpireThroughIff(s, 0, p.id.node, now);
    ExpireSendsNothing(s, 0, p.id.node, now);
    FindUnique(s.pings, p);
    s1 := Expire(s, 0, p.id.node, now).state;
    FindUnique(s1.pings, p);
    CreditKeeps(s1, local, Some(p.id));
  }

  lemma AnswerCounts(s: Proto, local: nat, wire: nat -> nat, p: Ping, now: int)
    requires ProtoOk(s, local) && p in s.pings && !Expired(p, now) && EchoUsedUp(wire, s.sent, p.id.echo)
    requires NoneStops(s, 0, p.id.node, now)
    ensures p !in Update(s, local, wire, p.id.node, Some(p.id), now).0.pings <==> Unhindered(s, p, now)
  {
    var s1 := UpdateGoesThrough(s, local, wire, p, now);
    DropMembers(s1.pings, p.id);
    var (s2, ok) := Credit(s1, Some(p.id));
    if ok {
      AdmitKeepsOther(s2, local, wire, p.id.node, now, p.id);
    }
  }

  lemma AnswerIsLost(s: Proto, local: nat, wire: nat -> nat, p: Ping, now: int)
    requires ProtoOk(s, local) && p in s.pings && !Expired(p, now) && EchoUsedUp(wire, s.sent, p.id.echo)
    requires !NoneStops(s, 0, p.id.node, now)
    ensures p in Update(s, local, wire, p.id.node, Some(p.id), now).0.pings
  {
    assert PingOk(p, local);
    FindUnique(s.pings, p);
    ExpireKeeps(s, local, 0, p.id.node, now);
    ExpireEvicts(s, local, 0, p.id.node, now);
    ExpireThroughIff(s, 0, p.id.node, now);
    ExpireSendsNothing(s, 0, p.id.node, now);
    if Expire(s, 0, p.id.node, now).Replaced? {
      var s1 := Expire(s, 0, p.id.node, now).state;
      PingStays(s1, local, wire, Expire(s, 0, p.id.node, now).successor, now, p);
    }
  }

  /**
   * A pong that arrives in time is credited exactly when it is unhindered: no ping that timed out
   * waits with a replacement, was sent to the same node, or names a node that cannot be looked up.
   * Otherwise its ping stays outstanding, and will time out although it was answered.
   */
  lemma PongCreditedIff(s: Proto, local: nat, wire: nat -> nat, p: Ping, now: int)
    requires ProtoOk(s, local) && p in s.pings && !Expired(p, now) && EchoUsedUp(wire, s.sent, p.id.echo)
    ensures p !in Update(s, local, wire, p.id.node, Some(p.id), now).0.pings <==> Unhindered(s, p, now)
  {
    if NoneStops(s, 0, p.id.node, now) {
      AnswerCounts(s, local, wire, p, now);
    } else {
      AnswerIsLost(s, local, wire, p, now);
    }
  }

  /** `id` is the most recently seen node of the bucket it is looked up in. */
  ghost predicate Newest(buckets: seq<Bucket>, id: nat) {
    && Lookup(buckets, id).Some?
    && var nodes := buckets[Lookup(buckets, id).value].nodes;
       nodes != [] && nodes[|nodes| - 1] == id
  }

  lemma KnownBecomesNewest(s: Proto, local: nat, wire: nat -> nat, node: nat, now: int)
    requires ProtoOk(s, local) && Remote(node, local) && Stored(s.buckets, node) && Lookup(s.buckets, node).Some?
    ensures Newest(Admit(s, local, wire, node, now).0.buckets, node)
  {
    AdmitBuckets(s, local, wire, node, now);
    KnownIsAdded(s.buckets, local, node);
    AddedNewest(s.buckets, local, node);
  }

  lemma AdmitBuckets(s: Proto, local: nat, wire: nat -> nat, node: nat, now: int)
    requires ProtoOk(s, local) && Remote(node, local)
    ensures Admit(s, local, wire, node, now).0.buckets == AddNode(s.buckets, local, node).0
  {
    AdmitKeeps(s, local, wire, node, now);
  }

  lemma AddedNewest(buckets: seq<Bucket>, local: nat, id: nat)
    requires TableOk(buckets, local) && id <= MAX_ID && AddNode(buckets, local, id).1 == Added
    ensures Newest(AddNode(buckets, local, id).0, id)
  {
    AddedIsNewest(buckets, local, id);
  }

  /** Passing the walk without being stopped, the sender is not evicted by it. */
  lemma SenderSurvives(s: Proto, s1: Proto, node: nat, now: int)
    requires Evicts(s, s1, now) && NoneStops(s, 0, node, now) && Stored(s.buckets, node)
    ensures Stored(s1.buckets, node)
  {
    assert s.pings[0..] == s.pings;
    assert forall q :: q in s.pings && Expired(q, now) ==> !Stops(s.buckets, q, node);
  }

  /** A credited node stays in the table and becomes the most recently seen node of its bucket. */
  lemma CreditedStays(s: Proto, local: nat, wire: nat -> nat, p: Ping, now: int)
    requires ProtoOk(s, local) && p in s.pings && !Expired(p, now) && Unhindered(s, p, now)
    requires Stored(s.buckets, p.id.node) && Lookup(s.buckets, p.id.node).Some?
    ensures Newest(Update(s, local, wire, p.id.node, Some(p.id), now).0.buckets, p.id.node)
  {
    var s1 := UpdateGoesThrough(s, local, wire, p, now);
    SenderSurvives(s, s1, p.id.node, now);
    CreditEffect(s1, local, Some(p.id));
    CreditKeepsLookup(s1, p, p.id.node);
    KnownBecomesNewest(Credit(s1, Some(p.id)).0, local, wire, p.id.node, now);
  }

  lemma CreditKeepsLookup(s: Proto, p: Ping, id: nat)
    ensures Lookup(Credit(s, Some(p.id)).0.buckets, id) == Lookup(s.buckets, id)
  {
    if Find(s.pings, p.id).Some? && Find(s.pings, p.id).value.replacement.Some? {
      var r := Find(s.pings, p.id).value.replacement.value;
      if Lookup(s.buckets, r).Some? {
        var i := Lookup(s.buckets, r).value;
        LookupUnchanged(s.buckets, i, s.buckets[i].(cache := s.buckets[i].cache + [r]), id, 0);
      }
    }
  }

  /** A node that is in the table and can be looked up is added again, at the tail. */
  lemma KnownIsAdded(buckets: seq<Bucket>, local: nat, id: nat)
    requires TableOk(buckets, local) && id <= MAX_ID && Stored(buckets, id) && Lookup(buckets, id).Some?
    ensures AddNode(buckets, local, id).1 == Added
  {
    LookupSucceedsIff(buckets, local, id);
    var k :| 0 <= k < |buckets| && id in buckets[k].nodes;
    assert BucketOk(buckets[k]);
  }

  // ---------- Who is pinged ----------

  /** A ping to `n` was sent just now and waits for its answer. */
  ghost predicate Pinged(pings: seq<Ping>, n: nat, now: int) {
    exists p :: p in pings && p.id.node == n && p.timeout == now + REQUEST_TIMEOUT
  }

  lemma SendPingPings(s: Proto, wire: nat -> nat, node: nat, replacement: Option<nat>, now: int, n: nat)
    requires UniqueIds(s.pings) && (n == node || Pinged(s.pings, n, now))
    ensures Pinged(SendPing(s, wire, node, replacement, now).pings, n, now)
    ensures UniqueIds(SendPing(s, wire, node, replacement, now).pings)
  {
    var q := Ping(PingId(wire(s.sent), node), now + REQUEST_TIMEOUT, replacement);
    PutMembers(s.pings, q);
    if n == node {
      assert q in Put(s.pings, q);
    } else {
      var p :| p in s.pings && p.id.node == n && p.timeout == now + REQUEST_TIMEOUT;
      assert p in Put(s.pings, q);
    }
  }

  lemma {:induction false} PingAllPings(s: Proto, wire: nat -> nat, nodes: seq<nat>, now: int, n: nat)
    requires UniqueIds(s.pings) && (n in nodes || Pinged(s.pings, n, now))
    ensures Pinged(PingAll(s, wire, nodes, now).pings, n, now)
    decreases |nodes|
  {
    if nodes != [] {
      var s' := SendPing(s, wire, nodes[0], None, now);
      if n == nodes[0] || Pinged(s.pings, n, now) {
        SendPingPings(s, wire, nodes[0], None, now, n);
      } else {
        PutMembers(s.pings, Ping(PingId(wire(s.sent), nodes[0]), now + REQUEST_TIMEOUT, None));
      }
      PingAllPings(s', wire, nodes[1..], now, n);
    }
  }

  /**
   * A node for which there is no room: the least recently seen node of its bucket is pinged, with
   * the newcomer as its replacement, and nothing is added.
   */
  lemma FullBucketIsChecked(s: Proto, local: nat, wire: nat -> nat, node: nat, now: int)
    requires ProtoOk(s, local) && Remote(node, local) && AddNode(s.buckets, local, node).1.Evict?
    requires EchoUsedUp(wire, s.sent + 1, wire(s.sent))
    ensures var t := AddNode(s.buckets, local, node).0;
            && Lookup(t, node).Some? && |t[Lookup(t, node).value].nodes| == K_BUCKET_SIZE
            && Ping(PingId(wire(s.sent), t[Lookup(t, node).value].nodes[0]), now + REQUEST_TIMEOUT, Some(node))
               in Admit(s, local, wire, node, now).0.pings
    ensures forall n :: Stored(Admit(s, local, wire, node, now).0.buckets, n) <==> Stored(s.buckets, n)
  {
    var (t, outcome) := AddNode(s.buckets, local, node);
    CandidateIsOldest(s.buckets, local, node);
    var p := Ping(PingId(wire(s.sent), outcome.candidate), now + REQUEST_TIMEOUT, Some(node));
    var s' := SendPing(s.(buckets := t), wire, outcome.candidate, Some(node), now);
    PutMembers(s.pings, p);
    PingAllKeepsOther(s', local, wire, Waiting(t), now, p.id);
    AddNamesFull(s, local, wire, node, now);
  }

  lemma AddNamesFull(s: Proto, local: nat, wire: nat -> nat, node: nat, now: int)
    requires ProtoOk(s, local) && Remote(node, local) && AddNode(s.buckets, local, node).1.Evict?
    ensures forall n :: Stored(Admit(s, local, wire, node, now).0.buckets, n) <==> Stored(s.buckets, n)
  {
    AdmitKeeps(s, local, wire, node, now);
    forall n ensures Stored(AddNode(s.buckets, local, node).0, n) <==> Stored(s.buckets, n) {
      AddStores(s.buckets, local, node, n);
    }
  }

  /** The node returned for the eviction check heads the full bucket the newcomer belongs to. */
  lemma {:induction false} CandidateIsOldest(buckets: seq<Bucket>, local: nat, id: nat)
    requires TableOk(buckets, local) && id <= MAX_ID && AddNode(buckets, local, id).1.Evict?
    ensures var (t, outcome) := AddNode(buckets, local, id);
            && Lookup(t, id).Some? && |t[Lookup(t, id).value].nodes| == K_BUCKET_SIZE
            && t[Lookup(t, id).value].nodes[0] == outcome.candidate
    decreases Width(buckets, id)
  {
    var i := Lookup(buckets, id).value;
    AddToBucketOk(buckets[i], id);
    if MaySplit(buckets[i], local) {
      FoundFullIsWide(buckets, local, id);
      SplitOk(buckets, local, i);
      SplitNarrows(buckets, local, id);
      CandidateIsOldest(SplitAt(buckets, i), local, id);
    }
  }

  /** When a node was added, every replacement of every bucket that is not full is pinged. */
  lemma WaitingArePinged(s: Proto, local: nat, wire: nat -> nat, node: nat, now: int, n: nat)
    requires ProtoOk(s, local) && Remote(node, local) && Admit(s, local, wire, node, now).1
    requires n in Waiting(Admit(s, local, wire, node, now).0.buckets)
    ensures Pinged(Admit(s, local, wire, node, now).0.pings, n, now)
  {
    AdmitKeeps(s, local, wire, node, now);
    var (t, outcome) := AddNode(s.buckets, local, node);
    var s' := s.(buckets := t);
    if outcome.Evict? {
      SendPingPings(s', wire, outcome.candidate, Some(node), now, outcome.candidate);
      PingAllPings(SendPing(s', wire, outcome.candidate, Some(node), now), wire, Waiting(t), now, n);
    } else {
      PingAllPings(s', wire, Waiting(t), now, n);
    }
  }

  // ---------- The same for an update that no timed-out ping stops ----------

  /** A message from another node; a pong answers an expected ping. */
  ghost predicate Handled(s: Proto, local: nat, node: nat, pid: Option<PingId>, now: int) {
    && ProtoOk(s, local) && Remote(node, local) && NoneStops(s, 0, node, now)
    && (pid.Some? ==> Find(s.pings, pid.value).Some? && !Expired(Find(s.pings, pid.value).value, now))
  }

  /** Such an update that ends without an exception ends by admitting the sender. */
  lemma UpdateEndsInAdmit(s: Proto, local: nat, wire: nat -> nat, node: nat, pid: Option<PingId>, now: int) returns (s2: Proto)
    requires Handled(s, local, node, pid, now) && Update(s, local, wire, node, pid, now).1
    ensures ProtoOk(s2, local) && s2.sent == s.sent
    ensures Admit(s2, local, wire, node, now) == Update(s, local, wire, node, pid, now)
  {
    ExpireThroughIff(s, 0, node, now);
    ExpireKeeps(s, local, 0, node, now);
    ExpireSendsNothing(s, 0, node, now);
    var s1 := Expire(s, 0, node, now).state;
    CreditKeeps(s1, local, pid);
    s2 := Credit(s1, pid).0;
  }

  /**
   * After such an update the sender is the newest node of its bucket; or there was no room for it,
   * and then its bucket is full, and the least recently seen node of the bucket was pinged with the
   * sender as its replacement.
   */
  lemma SenderStoredOrWaits(s: Proto, local: nat, wire: nat -> nat, node: nat, pid: Option<PingId>, now: int)
    requires Handled(s, local, node, pid, now) && Update(s, local, wire, node, pid, now).1
    requires EchoUsedUp(wire, s.sent + 1, wire(s.sent))
    ensures var s' := Update(s, local, wire, node, pid, now).0;
            && Lookup(s'.buckets, node).Some?
            && var nodes := s'.buckets[Lookup(s'.buckets, node).value].nodes;
               if Stored(s'.buckets, node) then Newest(s'.buckets, node)
               else |nodes| == K_BUCKET_SIZE && Ping(PingId(wire(s.sent), nodes[0]), now + REQUEST_TIMEOUT, Some(node)) in s'.pings
  {
    var s2 := UpdateEndsInAdmit(s, local, wire, node, pid, now);
    AdmitBuckets(s2, local, wire, node, now);
    if AddNode(s2.buckets, local, node).1.Evict? {
      FullBucketIsChecked(s2, local, wire, node, now);
      CandidateIsOldest(s2.buckets, local, node);
      EvictedMeansAbsent(s2.buckets, local, node);
    } else {
      AddedNewest(s2.buckets, local, node);
      AddStores(s2.buckets, local, node, node);
    }
  }

  lemma EvictedMeansAbsent(buckets: seq<Bucket>, local: nat, id: nat)
    requires TableOk(buckets, local) && id <= MAX_ID && AddNode(buckets, local, id).1.Evict?
    ensures !Stored(AddNode(buckets, local, id).0, id)
  {
    AddStores(buckets, local, id, id);
    if Stored(buckets, id) {
      KnownIsAdded(buckets, local, id);
      assert false;
    }
  }

  /** And every replacement of every bucket that is not full then has been pinged. */
  lemma UpdatePingsWaiting(s: Proto, local: nat, wire: nat -> nat, node: nat, pid: Option<PingId>, now: int, n: nat)
    requires Handled(s, local, node, pid, now) && Update(s, local, wire, node, pid, now).1
    requires n in Waiting(Update(s, local, wire, node, pid, now).0.buckets)
    ensures Pinged(Update(s, local, wire, node, pid, now).0.pings, n, now)
  {
    var s2 := UpdateEndsInAdmit(s, local, wire, node, pid, now);
    WaitingArePinged(s2, local, wire, node, now, n);
  }

  lemma {:induction false} ExpireKeepsCaches(s: Proto, i: nat, node: nat, now: int, n: nat)
    requires i <= |s.pings|
    ensures Cached(Expire(s, i, node, now).state.buckets, n) <==> Cached(s.buckets, n)
    decreases |s.pings| - i
  {
    if i < |s.pings| {
      if !Expired(s.pings[i], now) {
        ExpireKeepsCaches(s, i + 1, node, now, n);
      } else {
        RemoveKeepsCaches(s.buckets, s.pings[i].id.node, n);
        ExpireKeepsCaches(Without(s, i).(buckets := RemoveNode(s.buckets, s.pings[i].id.node).0), i, node, now, n);
      }
    }
  }

  lemma CreditCaches(s: Proto, p: Ping, n: nat)
    requires Find(s.pings, p.id) == Some(p) && (p.replacement.Some? ==> Lookup(s.buckets, p.replacement.value).Some?)
    ensures Cached(Credit(s, Some(p.id)).0.buckets, n) <==> Cached(s.buckets, n) || p.replacement == Some(n)
  {
    if p.replacement.Some? {
      var r := p.replacement.value;
      var i := Lookup(s.buckets, r).value;
      var t := s.buckets[i := s.buckets[i].(cache := s.buckets[i].cache + [r])];
      assert forall k :: 0 <= k < |t| ==> (n in t[k].cache <==> n in s.buckets[k].cache || (k == i && n == r));
      if n == r {
        assert n in t[i].cache;
      }
    }
  }

  /**
   * When a pinged node answers in time, unhindered: the replacement of the ping, and no other node,
   * is put among the replacements of its bucket.
   */
  lemma AnsweredKeepsReplacement(s: Proto, local: nat, wire: nat -> nat, p: Ping, now: int, n: nat)
    requires ProtoOk(s, local) && p in s.pings && !Expired(p, now) && Unhindered(s, p, now)
    ensures Cached(Update(s, local, wire, p.id.node, Some(p.id), now).0.buckets, n)
       <==> Cached(s.buckets, n) || p.replacement == Some(n)
  {
    var s1 := UpdateGoesThrough(s, local, wire, p, now);
    ExpireKeepsCaches(s, 0, p.id.node, now, n);
    CreditCaches(s1, p, n);
    var s2 := Credit(s1, Some(p.id)).0;
    AdmitBuckets(s2, local, wire, p.id.node, now);
    AddKeepsCaches(s2.buckets, local, p.id.node, n);
  }

  // ---------- Handling messages ----------

  /** What reaches a node, and when. */
  datatype Event =
    | RecvPing(remote: nat, now: int)
    | RecvPong(remote: nat, echo: nat, now: int)
    | RecvFindNode(remote: nat, now: int)
    | RecvNeighbours(nodes: seq<nat>, now: int)
    | Bootstrap(nodes: seq<nat>, now: int)

  ghost predicate IdsOk(ids: seq<nat>) {
    forall i :: 0 <= i < |ids| ==> ids[i] <= MAX_ID
  }

  ghost predicate EventOk(e: Event) {
    match e
    case RecvNeighbours(nodes, _) => IdsOk(nodes)
    case Bootstrap(nodes, _) => IdsOk(nodes)
    case _ => e.remote <= MAX_ID
  }

  /** The nodes that are neither local nor in the table; None stands for the exception of a lookup. */
  function Unknown(buckets: seq<Bucket>, local: nat, nodes: seq<nat>): (r: Option<seq<nat>>)
    ensures r.Some? ==> forall n :: n in r.value ==> n in nodes && n != local
    decreases |nodes|
  {
    if nodes == [] then Some([])
    else if nodes[0] == local then Unknown(buckets, local, nodes[1..])
    else
      match (Lookup(buckets, nodes[0]), Unknown(buckets, local, nodes[1..]))
      case (Some(i), Some(rest)) => if nodes[0] in buckets[i].nodes then Some(rest) else Some([nodes[0]] + rest)
      case _ => None
  }

  /** Add the nodes one by one, up to the first exception. */
  function AddAll(buckets: seq<Bucket>, local: nat, nodes: seq<nat>): (seq<Bucket>, bool)
    requires TableOk(buckets, local) && IdsOk(nodes)
    decreases |nodes|
  {
    if nodes == [] then (buckets, true)
    else if nodes[0] == local then AddAll(buckets, local, nodes[1..])
    else
      AddKeepsTable(buckets, local, nodes[0]);
      var (t, outcome) := AddNode(buckets, local, nodes[0]);
      if outcome == Raised then (t, false) else AddAll(t, local, nodes[1..])
  }

  /** Handle one message; false stands for an exception. */
  function Handle(s: Proto, local: nat, wire: nat -> nat, e: Event): (Proto, bool)
    requires ProtoOk(s, local) && EventOk(e)
  {
    match e
    case RecvPing(remote, now) => Update(s, local, wire, remote, None, now)
    case RecvFindNode(remote, now) => Update(s, local, wire, remote, None, now)
    case RecvPong(remote, echo, now) =>
      if remote == local then (s, false) else Update(s, local, wire, remote, Some(PingId(echo, remote)), now)
    case RecvNeighbours(nodes, now) =>
      (match Unknown(s.buckets, local, nodes)
       case None => (s, false)
       case Some(unknown) => (PingAll(s, wire, unknown, now), true))
    case Bootstrap(nodes, _) =>
      var (t, ok) := AddAll(s.buckets, local, nodes);
      (s.(buckets := t), ok)
  }

  lemma {:induction false} AddAllKeeps(buckets: seq<Bucket>, local: nat, nodes: seq<nat>)
    requires TableOk(buckets, local) && IdsOk(nodes)
    ensures TableOk(AddAll(buckets, local, nodes).0, local)
    ensures forall n :: Cached(AddAll(buckets, local, nodes).0, n) <==> Cached(buckets, n)
    ensures forall n :: Stored(buckets, n) ==> Stored(AddAll(buckets, local, nodes).0, n)
    decreases |nodes|
  {
    if nodes != [] {
      if nodes[0] == local {
        AddAllKeeps(buckets, local, nodes[1..]);
      } else {
        AddKeepsTable(buckets, local, nodes[0]);
        var (t, outcome) := AddNode(buckets, local, nodes[0]);
        forall n ensures Cached(t, n) <==> Cached(buckets, n)
                 ensures Stored(buckets, n) ==> Stored(t, n) {
          AddKeepsCaches(buckets, local, nodes[0], n);
          AddStores(buckets, local, nodes[0], n);
        }
        if outcome != Raised {
          AddAllKeeps(t, local, nodes[1..]);
        }
      }
    }
  }

  /**
   * Whatever arrives, the state stays well-formed, the only nodes that leave the table are nodes
   * whose pings timed out, and the pings are old ones or new ones.
   */
  lemma HandleKeeps(s: Proto, local: nat, wire: nat -> nat, e: Event)
    requires ProtoOk(s, local) && EventOk(e)
    ensures var s' := Handle(s, local, wire, e).0;
            && ProtoOk(s', local) && OnlyNewPings(s.pings, s'.pings, e.now)
            && forall n :: Stored(s.buckets, n) && !Stored(s'.buckets, n) ==> TimedOut(s.pings, n, e.now)
  {
    match e
    case RecvPong(remote, echo, now) =>
      if remote != local {
        UpdateKeeps(s, local, wire, remote, Some(PingId(echo, remote)), now);
        var _ := UpdateEffect(s, local, wire, remote, Some(PingId(echo, remote)), now);
      }
    case RecvNeighbours(nodes, now) =>
      var unknown := Unknown(s.buckets, local, nodes);
      if unknown.Some? {
        PingAllKeeps(s, local, wire, unknown.value, now);
      }
    case Bootstrap(nodes, _) =>
      AddAllKeeps(s.buckets, local, nodes);
    case _ =>
      UpdateKeeps(s, local, wire, e.remote, None, e.now);
      var _ := UpdateEffect(s, local, wire, e.remote, None, e.now);
  }

  lemma {:induction false} UnknownMembers(buckets: seq<Bucket>, local: nat, nodes: seq<nat>, n: nat)
    requires TableOk(buckets, local) && IdsOk(nodes) && Unknown(buckets, local, nodes).Some?
    ensures n in Unknown(buckets, local, nodes).value <==> n in nodes && n != local && !Stored(buckets, n)
    decreases |nodes|
  {
    if nodes != [] {
      UnknownMembers(buckets, local, nodes[1..], n);
      assert n in nodes <==> n == nodes[0] || n in nodes[1..];
      if n == nodes[0] && n != local {
        StoredIsFound(buckets, local, n);
      }
    }
  }

  lemma StoredIsFound(buckets: seq<Bucket>, local: nat, n: nat)
    requires TableOk(buckets, local) && n <= MAX_ID && Lookup(buckets, n).Some?
    ensures Stored(buckets, n) <==> n in buckets[Lookup(buckets, n).value].nodes
  {
    LookupSucceedsIff(buckets, local, n);
    if k :| 0 <= k < |buckets| && n in buckets[k].nodes {
      assert BucketOk(buckets[k]);
    }
  }

  /** Of the nodes another node names, exactly those are newly pinged that are remote and not in the table. */
  lemma NeighboursArePinged(s: Proto, local: nat, wire: nat -> nat, nodes: seq<nat>, now: int, n: nat)
    requires ProtoOk(s, local) && IdsOk(nodes) && Handle(s, local, wire, RecvNeighbours(nodes, now)).1
    ensures Pinged(Handle(s, local, wire, RecvNeighbours(nodes, now)).0.pings, n, now)
       <==> Pinged(s.pings, n, now) || (n in nodes && n != local && !Stored(s.buckets, n))
  {
    UnknownMembers(s.buckets, local, nodes, n);
    var unknown := Unknown(s.buckets, local, nodes).value;
    if n in unknown || Pinged(s.pings, n, now) {
      PingAllPings(s, wire, unknown, now, n);
    } else {
      OnlyThosePinged(s, wire, unknown, now, n);
    }
  }

  lemma {:induction false} OnlyThosePinged(s: Proto, wire: nat -> nat, nodes: seq<nat>, now: int, n: nat)
    requires UniqueIds(s.pings) && n !in nodes && !Pinged(s.pings, n, now)
    ensures !Pinged(PingAll(s, wire, nodes, now).pings, n, now)
    decreases |nodes|
  {
    if nodes != [] {
      PutMembers(s.pings, Ping(PingId(wire(s.sent), nodes[0]), now + REQUEST_TIMEOUT, None));
      OnlyThosePinged(SendPing(s, wire, nodes[0], None, now), wire, nodes[1..], now, n);
    }
  }

  // ---------- Runs ----------

  ghost predicate EventsOk(events: seq<Event>) {
    forall i :: 0 <= i < |events| ==> EventOk(events[i])
  }

  /** The state after the events, from a fresh start; it is well-formed in every run. */
  function After(local: nat, wire: nat -> nat, events: seq<Event>): (s: Proto)
    requires EventsOk(events)
    ensures ProtoOk(s, local)
    decreases |events|
  {
    if events == [] then
      InitialTable(local);
      Proto([Bucket(0, MAX_ID, [], [])], [], 0)
    else
      var s := After(local, wire, events[..|events| - 1]);
      var e := events[|events| - 1];
      HandleKeeps(s, local, wire, e);
      Handle(s, local, wire, e).0
  }

  /** The ping `p` was outstanding after event `j` and every later one. */
  ghost predicate Outstanding(local: nat, wire: nat -> nat, events: seq<Event>, j: nat, p: Ping)
    requires EventsOk(events) && j < |events|
    decreases |events|
  {
    && p in After(local, wire, events).pings
    && (j < |events| - 1 ==> Outstanding(local, wire, events[..|events| - 1], j, p))
  }

  /** Every outstanding ping was sent once and has not been answered since. */
  lemma {:induction false} PingOrigin(local: nat, wire: nat -> nat, events: seq<Event>, p: Ping) returns (j: nat)
    requires EventsOk(events) && p in After(local, wire, events).pings
    ensures j < |events| && Outstanding(local, wire, events, j, p) && p.timeout == events[j].now + REQUEST_TIMEOUT
    decreases |events|
  {
    var before, e := events[..|events| - 1], events[|events| - 1];
    HandleKeeps(After(local, wire, before), local, wire, e);
    if p in After(local, wire, before).pings {
      j := PingOrigin(local, wire, before, p);
    } else {
      j := |events| - 1;
    }
  }

  /**
   * In every run, a node that leaves the table was pinged earlier, that ping stayed outstanding
   * ever since, and more than the time-out has passed.
   */
  lemma EvictedOnlyAfterTimeout(local: nat, wire: nat -> nat, events: seq<Event>, e: Event, n: nat) returns (j: nat, p: Ping)
    requires EventsOk(events) && EventOk(e)
    requires Stored(After(local, wire, events).buckets, n) && !Stored(After(local, wire, events + [e]).buckets, n)
    ensures j < |events| && p.id.node == n && Outstanding(local, wire, events, j, p)
    ensures e.now > events[j].now + REQUEST_TIMEOUT
  {
    var s := After(local, wire, events);
    assert (events + [e])[..|events|] == events;
    HandleKeeps(s, local, wire, e);
    p :| p in s.pings && p.id.node == n && Expired(p, e.now);
    j := PingOrigin(local, wire, events, p);
  }
}

/**
 * What an update has done when it returns: the timed-out pings it has worked off, also behind a
 * replacement that took over, and what became of the node that was added last.
 */
module UpdateOutcome {
  import opened Options
  import opened XorMetric
  import opened Sorting
  import opened Buckets
  import opened BucketTable
  import opened Eviction
  import opened EvictionRuns

  // ---------- The walk over the timed-out pings ----------

  ghost predicate NoneExpired(pings: seq<Ping>, now: int) {
    forall p :: p in pings ==> now <= p.timeout
  }

  /** The nodes of timed-out pings are out of the table, but for `m`. */
  ghost predicate TimedOutLeft(pings: seq<Ping>, buckets: seq<Bucket>, m: Option<nat>, now: int) {
    forall p :: p in pings && now > p.timeout ==> m == Some(p.id.node) || !Stored(buckets, p.id.node)
  }

  /** A ping to `m` timed out that waits with no replacement. */
  ghost predicate TimedOutAlone(pings: seq<Ping>, m: nat, now: int) {
    exists p :: p in pings && now > p.timeout && p.replacement == None && p.id.node == m
  }

  lemma SplitPings(pings: seq<Ping>, i: nat)
    requires i < |pings|
    ensures pings[i..] == [pings[i]] + pings[i + 1..] && (pings[..i] + pings[i + 1..])[i..] == pings[i + 1..]
    ensures (pings[..i] + pings[i + 1..])[..i] == pings[..i] && pings[..i + 1] == pings[..i] + [pings[i]]
  {
  }

  /** A walk that reaches the end leaves no timed-out ping, and none of their nodes. */
  lemma {:induction false} WalkedThrough(s: Proto, local: nat, i: nat, node: nat, now: int)
    requires ProtoOk(s, local) && i <= |s.pings| && NoneExpired(s.pings[..i], now)
    requires Expire(s, i, node, now).Through?
    ensures NoneExpired(Expire(s, i, node, now).state.pings, now)
    ensures TimedOutLeft(s.pings[i..], Expire(s, i, node, now).state.buckets, None, now)
    decreases |s.pings| - i
  {
    if i == |s.pings| {
      assert s.pings[..i] == s.pings;
    } else {
      SplitPings(s.pings, i);
      var p := s.pings[i];
      if now <= p.timeout {
        WalkedThrough(s, local, i + 1, node, now);
      } else {
        var s' := Without(s, i).(buckets := RemoveNode(s.buckets, p.id.node).0);
        EvictKeeps(s, local, i);
        WalkedThrough(s', local, i, node, now);
        NodeGone(s, local, i);
        ExpireEvicts(s', local, i, node, now);
      }
    }
  }

  lemma NodeGone(s: Proto, local: nat, i: nat)
    requires ProtoOk(s, local) && i < |s.pings| && RemoveNode(s.buckets, s.pings[i].id.node).1
    ensures !Stored(RemoveNode(s.buckets, s.pings[i].id.node).0, s.pings[i].id.node)
  {
    assert s.pings[i] in s.pings && PingOk(s.pings[i], local);
    RemoveKeepsTable(s.buckets, local, s.pings[i].id.node, s.pings[i].id.node);
  }

  /** A walk that a replacement ends: the pings in front of the one that waited with it are worked off. */
  lemma {:induction false} WalkedToReplacement(s: Proto, local: nat, i: nat, node: nat, now: int, p: Ping)
    requires ProtoOk(s, local) && i <= |s.pings| && Expire(s, i, node, now).Replaced?
    requires p in s.pings[i..] && now > p.timeout
    ensures p in Expire(s, i, node, now).state.pings || !Stored(Expire(s, i, node, now).state.buckets, p.id.node)
    decreases |s.pings| - i
  {
    SplitPings(s.pings, i);
    var q := s.pings[i];
    if now <= q.timeout {
      WalkedToReplacement(s, local, i + 1, node, now, p);
    } else {
      var s' := Without(s, i).(buckets := RemoveNode(s.buckets, q.id.node).0);
      EvictKeeps(s, local, i);
      NodeGone(s, local, i);
      if q.replacement == None {
        if p != q {
          WalkedToReplacement(s', local, i, node, now, p);
        } else {
          ExpireEvicts(s', local, i, node, now);
        }
      } else if p != q {
        assert p in s.pings[i + 1..];
      }
    }
  }

  lemma {:induction false} WalkStopped(s: Proto, local: nat, i: nat, node: nat, now: int) returns (p: Ping)
    requires ProtoOk(s, local) && i <= |s.pings| && Expire(s, i, node, now).Stopped?
    ensures p in s.pings && p !in Expire(s, i, node, now).state.pings
    ensures now > p.timeout && p.replacement == None && p.id.node == node
    ensures !Stored(Expire(s, i, node, now).state.buckets, node)
    decreases |s.pings| - i
  {
    p := s.pings[i];
    if !Expired(p, now) {
      p := WalkStopped(s, local, i + 1, node, now);
    } else {
      EvictKeeps(s, local, i);
      if p.id.node != node {
        var s' := Without(s, i).(buckets := RemoveNode(s.buckets, p.id.node).0);
        p := WalkStopped(s', local, i, node, now);
      } else {
        NodeGone(s, local, i);
        Eviction.WithoutMembers(s.pings, i);
      }
    }
  }

  // ---------- How an update ends ----------

  /** It went through to the end, and added `m` or has the node checked that `m` might replace. */
  ghost predicate Completed(s: Proto, s': Proto, wire: nat -> nat, m: nat, now: int) {
    && NoneExpired(s'.pings, now)
    && TimedOutLeft(s.pings, s'.buckets, Some(m), now)
    && Lookup(s'.buckets, m).Some?
    && (var nodes := s'.buckets[Lookup(s'.buckets, m).value].nodes;
        if Stored(s'.buckets, m) then nodes != [] && nodes[|nodes| - 1] == m
        else |nodes| == 16 && Ping(PingId(wire(s.sent), nodes[0]), now + 900, Some(m)) in s'.pings)
    && (forall i, n :: 0 <= i < |s'.buckets| && |s'.buckets[i].nodes| < 16 && n in s'.buckets[i].cache ==> JustPinged(s'.pings, n, now))
    && forall p :: p in s'.pings && p !in s.pings ==> IsDue(s', m, p)
  }

  /** A ping for the oldest node of the full bucket of `m`, or for a replacement of a bucket with room. */
  ghost predicate IsDue(s': Proto, m: nat, p: Ping)
    requires Lookup(s'.buckets, m).Some?
  {
    var b := s'.buckets[Lookup(s'.buckets, m).value];
    || (p.replacement == Some(m) && |b.nodes| == 16 && p.id.node == b.nodes[0])
    || (p.replacement == None && exists i :: 0 <= i < |s'.buckets| && |s'.buckets[i].nodes| < 16 && p.id.node in s'.buckets[i].cache)
  }

  ghost predicate JustPinged(pings: seq<Ping>, n: nat, now: int) {
    exists p :: p in pings && p.id.node == n && p.timeout == now + 900
  }

  /** It ended early, at a timed-out ping to `m` itself: that one is worked off, and nothing was added or sent. */
  ghost predicate HeldUp(s: Proto, s': Proto, m: nat, now: int) {
    && s'.sent == s.sent && (forall p :: p in s'.pings ==> p in s.pings)
    && !Stored(s'.buckets, m)
    && exists p :: p in s.pings && p !in s'.pings && now > p.timeout && p.replacement == None && p.id.node == m
  }

  lemma {:induction false} WaitingMembers(buckets: seq<Bucket>, i: nat, n: nat)
    requires i < |buckets| && |buckets[i].nodes| < 16 && n in buckets[i].cache
    ensures n in Waiting(buckets)
    decreases |buckets|
  {
    if i > 0 {
      assert buckets[1..][i - 1] == buckets[i];
      WaitingMembers(buckets[1..], i - 1, n);
    }
  }

  lemma {:induction false} WaitingHaveRoom(buckets: seq<Bucket>, n: nat)
    requires n in Waiting(buckets)
    ensures exists i :: 0 <= i < |buckets| && |buckets[i].nodes| < 16 && n in buckets[i].cache
    decreases |buckets|
  {
    if !(|buckets[0].nodes| < 16 && n in buckets[0].cache) {
      WaitingHaveRoom(buckets[1..], n);
      var i :| 0 <= i < |buckets[1..]| && |buckets[1..][i].nodes| < 16 && n in buckets[1..][i].cache;
      assert buckets[i + 1] == buckets[1..][i];
    }
  }

  lemma {:induction false} PingAllAdds(s: Proto, wire: nat -> nat, nodes: seq<nat>, now: int, p: Ping)
    requires UniqueIds(s.pings) && p in PingAll(s, wire, nodes, now).pings
    ensures p in s.pings || (p.replacement == None && p.id.node in nodes)
    decreases |nodes|
  {
    if nodes != [] {
      PutMembers(s.pings, Ping(PingId(wire(s.sent), nodes[0]), now + REQUEST_TIMEOUT, None));
      PingAllAdds(SendPing(s, wire, nodes[0], None, now), wire, nodes[1..], now, p);
    }
  }

  lemma AdmitSendsDue(s: Proto, local: nat, wire: nat -> nat, node: nat, now: int, p: Ping)
    requires ProtoOk(s, local) && Remote(node, local) && Admit(s, local, wire, node, now).1
    requires p in Admit(s, local, wire, node, now).0.pings && p !in s.pings && Lookup(Admit(s, local, wire, node, now).0.buckets, node).Some?
    ensures IsDue(Admit(s, local, wire, node, now).0, node, p)
  {
    AdmitKeeps(s, local, wire, node, now);
    var (t, outcome) := AddNode(s.buckets, local, node);
    var s' := s.(buckets := t);
    if outcome.Evict? {
      CandidateIsOldest(s.buckets, local, node);
      PutMembers(s.pings, Ping(PingId(wire(s.sent), outcome.candidate), now + REQUEST_TIMEOUT, Some(node)));
      PingAllAdds(SendPing(s', wire, outcome.candidate, Some(node), now), wire, Waiting(t), now, p);
    } else {
      PingAllAdds(s', wire, Waiting(t), now, p);
    }
    if p.id.node in Waiting(t) {
      WaitingHaveRoom(t, p.id.node);
    }
  }

  lemma AdmitCompletes(s0: Proto, s: Proto, local: nat, wire: nat -> nat, node: nat, now: int)
    requires ProtoOk(s, local) && Remote(node, local) && NoneExpired(s.pings, now) && s.sent == s0.sent
    requires TimedOutLeft(s0.pings, s.buckets, None, now) && Admit(s, local, wire, node, now).1
    requires EchoUsedUp(wire, s.sent + 1, wire(s.sent)) && forall p :: p in s.pings ==> p in s0.pings
    ensures Completed(s0, Admit(s, local, wire, node, now).0, wire, node, now)
  {
    var s' := Admit(s, local, wire, node, now).0;
    AdmitKeeps(s, local, wire, node, now);
    AdmitEffect(s, local, wire, node, now);
    AdmittedStoredOrWaits(s, local, wire, node, now);
    forall i, n | 0 <= i < |s'.buckets| && |s'.buckets[i].nodes| < 16 && n in s'.buckets[i].cache
      ensures JustPinged(s'.pings, n, now)
    {
      WaitingMembers(s'.buckets, i, n);
      WaitingArePinged(s, local, wire, node, now, n);
    }
    forall p | p in s'.pings && p !in s0.pings ensures IsDue(s', node, p) {
      AdmitSendsDue(s, local, wire, node, now, p);
    }
  }

  lemma AdmittedStoredOrWaits(s: Proto, local: nat, wire: nat -> nat, node: nat, now: int)
    requires ProtoOk(s, local) && Remote(node, local) && Admit(s, local, wire, node, now).1
    requires EchoUsedUp(wire, s.sent + 1, wire(s.sent))
    ensures var s' := Admit(s, local, wire, node, now).0;
            && Lookup(s'.buckets, node).Some?
            && var nodes := s'.buckets[Lookup(s'.buckets, node).value].nodes;
               if Stored(s'.buckets, node) then nodes != [] && nodes[|nodes| - 1] == node
               else |nodes| == 16 && Ping(PingId(wire(s.sent), nodes[0]), now + 900, Some(node)) in s'.pings
  {
    AdmitBuckets(s, local, wire, node, now);
    if AddNode(s.buckets, local, node).1.Evict? {
      FullBucketIsChecked(s, local, wire, node, now);
      CandidateIsOldest(s.buckets, local, node);
      EvictedMeansAbsent(s.buckets, local, node);
    } else {
      AddedNewest(s.buckets, local, node);
      AddStores(s.buckets, local, node, node);
    }
  }

  lemma CreditLeavesNoneExpired(s: Proto, local: nat, pid: Option<PingId>, now: int)
    requires ProtoOk(s, local) && NoneExpired(s.pings, now)
    ensures NoneExpired(Credit(s, pid).0.pings, now) && Credit(s, pid).0.sent == s.sent
  {
    CreditEffect(s, local, pid);
  }

  /** An update whose walk reaches the end. */
  lemma ThroughCompletes(s: Proto, local: nat, wire: nat -> nat, node: nat, pid: Option<PingId>, now: int)
    requires ProtoOk(s, local) && Remote(node, local) && (pid.Some? ==> Find(s.pings, pid.value).Some?)
    requires Update(s, local, wire, node, pid, now).1 && EchoUsedUp(wire, s.sent + 1, wire(s.sent))
    requires Expire(s, 0, node, now).Through?
    ensures Completed(s, Update(s, local, wire, node, pid, now).0, wire, node, now)
  {
    var s1 := Expire(s, 0, node, now).state;
    ExpireKeeps(s, local, 0, node, now);
    ExpireSendsNothing(s, 0, node, now);
    WalkedThrough(s, local, 0, node, now);
    ExpireEvicts(s, local, 0, node, now);
    assert s.pings[0..] == s.pings;
    CreditKeeps(s1, local, pid);
    CreditEffect(s1, local, pid);
    CreditLeavesNoneExpired(s1, local, pid, now);
    AdmitCompletes(s, Credit(s1, pid).0, local, wire, node, now);
  }

  /** What is worked off before a replacement takes over and after it. */
  lemma TakeoverCompletes(s: Proto, s1: Proto, local: nat, wire: nat -> nat, node: nat, now: int, s': Proto, m: nat)
    requires ProtoOk(s, local) && Expire(s, 0, node, now).Replaced? && Expire(s, 0, node, now).state == s1
    requires s1.sent == s.sent && Completed(s1, s', wire, m, now) && Evicts(s, s1, now)
    requires forall n :: Stored(s'.buckets, n) ==> Stored(s1.buckets, n) || n == m
    ensures Completed(s, s', wire, m, now)
  {
    assert s.pings[0..] == s.pings;
    forall p | p in s.pings && now > p.timeout ensures p.id.node == m || !Stored(s'.buckets, p.id.node) {
      WalkedToReplacement(s, local, 0, node, now, p);
    }
  }

  /**
   * An update that ends without an exception: `m` is the sender, or the last of the replacements that
   * took over, one after the other.  Either no ping that timed out is left, their nodes are out of
   * the table, and `m` is the most recently seen node of its bucket or waits for the oldest node of a
   * full bucket to answer; or a ping to `m` itself timed out, and the update ended there.
   */
  lemma {:induction false} UpdateEnds(s: Proto, local: nat, wire: nat -> nat, node: nat, pid: Option<PingId>, now: int) returns (m: nat)
    requires ProtoOk(s, local) && Remote(node, local) && (pid.Some? ==> Find(s.pings, pid.value).Some?)
    requires Update(s, local, wire, node, pid, now).1 && EchoUsedUp(wire, s.sent + 1, wire(s.sent))
    ensures m == node || TakesOver(s.pings, m, now)
    ensures forall n :: Stored(Update(s, local, wire, node, pid, now).0.buckets, n) ==> Stored(s.buckets, n) || n == m
    ensures Completed(s, Update(s, local, wire, node, pid, now).0, wire, m, now)
         || HeldUp(s, Update(s, local, wire, node, pid, now).0, m, now)
    decreases |s.pings|
  {
    ExpireKeeps(s, local, 0, node, now);
    ExpireSendsNothing(s, 0, node, now);
    ExpireEvicts(s, local, 0, node, now);
    m := node;
    match Expire(s, 0, node, now)
    case Through(s1) =>
      ThroughCompletes(s, local, wire, node, pid, now);
      ThroughStores(s, s1, local, wire, node, pid, now);
    case Stopped(s1) =>
      var p := WalkStopped(s, local, 0, node, now);
    case Replaced(s1, r) =>
      m := UpdateEnds(s1, local, wire, r, None, now);
      TakenOver(s, s1, r, m, now);
      if Completed(s1, Update(s1, local, wire, r, None, now).0, wire, m, now) {
        TakeoverCompletes(s, s1, local, wire, node, now, Update(s1, local, wire, r, None, now).0, m);
      }
  }

  lemma ThroughStores(s: Proto, s1: Proto, local: nat, wire: nat -> nat, node: nat, pid: Option<PingId>, now: int)
    requires ProtoOk(s, local) && ProtoOk(s1, local) && Remote(node, local) && (pid.Some? ==> Find(s.pings, pid.value).Some?)
    requires Expire(s, 0, node, now) == Through(s1) && Evicts(s, s1, now) && Update(s, local, wire, node, pid, now).1
    ensures forall n :: Stored(Update(s, local, wire, node, pid, now).0.buckets, n) ==> Stored(s.buckets, n) || n == node
  {
    CreditKeeps(s1, local, pid);
    CreditEffect(s1, local, pid);
    AdmitEffect(Credit(s1, pid).0, local, wire, node, now);
  }

  lemma TakenOver(s: Proto, s1: Proto, r: nat, m: nat, now: int)
    requires Evicts(s, s1, now) && TakesOver(s.pings, r, now) && (m == r || TakesOver(s1.pings, m, now))
    ensures TakesOver(s.pings, m, now)
  {
    if m != r {
      var p :| p in s1.pings && p.replacement == Some(m) && Expired(p, now);
      assert p in s.pings;
    }
  }

  /** After such an update either no ping that timed out is left, or one was sent to a node that took over or sent the message. */
  lemma ExpiredPingsWorkedOff(s: Proto, local: nat, wire: nat -> nat, node: nat, pid: Option<PingId>, now: int)
    requires ProtoOk(s, local) && Remote(node, local) && (pid.Some? ==> Find(s.pings, pid.value).Some?)
    requires Update(s, local, wire, node, pid, now).1 && EchoUsedUp(wire, s.sent + 1, wire(s.sent))
    ensures NoneExpired(Update(s, local, wire, node, pid, now).0.pings, now)
         || exists p :: p in s.pings && now > p.timeout && p.replacement == None && (p.id.node == node || TakesOver(s.pings, p.id.node, now))
  {
    var m := UpdateEnds(s, local, wire, node, pid, now);
  }

  /** A pong nobody waits for, and a message of the local node to itself, change nothing. */
  lemma NothingToUpdate(s: Proto, local: nat, wire: nat -> nat, node: nat, pid: Option<PingId>, now: int)
    requires ProtoOk(s, local) && node <= MAX_ID
    requires node == local || (pid.Some? && forall p :: p in s.pings ==> p.id != pid.value)
    ensures Update(s, local, wire, node, pid, now) == (s, true)
  {
  }
}

/**
 * The eviction protocol of a node: which nodes a message, a timed-out ping or an answer puts into
 * the routing table and which it takes out.  Time is a parameter; the echo of the n-th ping that
 * is sent is whatever the wire chooses.
 */
module Eviction {
  import opened Options
  import opened XorMetric
  import opened Sorting
  import opened Buckets
  import opened BucketTable

  /** Round-trip time-out in milliseconds. */
  const REQUEST_TIMEOUT := 900

  /** The key of an expected pong: the echo and the node that was pinged. */
  datatype PingId = PingId(echo: nat, node: nat)

  /** A ping without an answer so far; the replacement waits for the outcome. */
  datatype Ping = Ping(id: PingId, timeout: int, replacement: Option<nat>)

  datatype Proto = Proto(buckets: seq<Bucket>, pings: seq<Ping>, sent: nat)

  predicate Expired(p: Ping, now: int) {
    now > p.timeout
  }

  // ---------- The expected pongs: a dictionary in the order of insertion ----------

  function Find(pings: seq<Ping>, id: PingId): (r: Option<Ping>)
    ensures r.Some? ==> r.value in pings && r.value.id == id
    ensures r.None? ==> forall p :: p in pings ==> p.id != id
  {
    if pings == [] then None else if pings[0].id == id then Some(pings[0]) else Find(pings[1..], id)
  }

  function Drop(pings: seq<Ping>, id: PingId): seq<Ping> {
    if pings == [] then [] else if pings[0].id == id then pings[1..] else [pings[0]] + Drop(pings[1..], id)
  }

  function Put(pings: seq<Ping>, p: Ping): seq<Ping> {
    if pings == [] then [p] else if pings[0].id == p.id then [p] + pings[1..] else [pings[0]] + Put(pings[1..], p)
  }

  ghost predicate UniqueIds(pings: seq<Ping>) {
    forall i, j :: 0 <= i < j < |pings| ==> pings[i].id != pings[j].id
  }

  lemma {:induction false} DropMembers(pings: seq<Ping>, id: PingId)
    requires UniqueIds(pings)
    ensures forall p :: p in Drop(pings, id) <==> p in pings && p.id != id
    ensures UniqueIds(Drop(pings, id))
  {
    if pings != [] {
      DropMembers(pings[1..], id);
      assert forall p :: p in pings <==> p == pings[0] || p in pings[1..];
      var rest := Drop(pings[1..], id);
      forall k | 0 <= k < |rest| ensures rest[k].id != pings[0].id {
        assert rest[k] in pings[1..];
      }
    }
  }

  lemma {:induction false} PutMembers(pings: seq<Ping>, q: Ping)
    requires UniqueIds(pings)
    ensures forall p :: p in Put(pings, q) <==> p == q || (p in pings && p.id != q.id)
    ensures UniqueIds(Put(pings, q))
  {
    if pings != [] {
      PutMembers(pings[1..], q);
      assert forall p :: p in pings <==> p == pings[0] || p in pings[1..];
      var rest := Put(pings[1..], q);
      if pings[0].id != q.id {
        forall k | 0 <= k < |rest| ensures rest[k].id != pings[0].id {
          assert rest[k] in rest;
        }
      } else {
        assert forall p :: p in pings[1..] ==> p.id != q.id;
      }
    }
  }

  /** Dropping the key of the entry at a position drops that entry. */
  lemma {:induction false} DropAt(pings: seq<Ping>, i: nat)
    requires UniqueIds(pings) && i < |pings|
    ensures Drop(pings, pings[i].id) == pings[..i] + pings[i + 1..]
    decreases i
  {
    if i > 0 {
      DropAt(pings[1..], i - 1);
      assert pings[..i] == [pings[0]] + pings[1..][..i - 1];
    }
  }

  // ---------- Well-formed states ----------

  ghost predicate Remote(n: nat, local: nat) {
    n != local && n <= MAX_ID
  }

  ghost predicate PingOk(p: Ping, local: nat) {
    Remote(p.id.node, local) && (p.replacement.Some? ==> Remote(p.replacement.value, local))
  }

  /** Some bucket has `n` among its replacements. */
  ghost predicate Cached(buckets: seq<Bucket>, n: nat) {
    exists i :: 0 <= i < |buckets| && n in buckets[i].cache
  }

  ghost predicate PingsOk(pings: seq<Ping>, local: nat) {
    UniqueIds(pings) && forall p :: p in pings ==> PingOk(p, local)
  }

  ghost predicate ProtoOk(s: Proto, local: nat) {
    TableOk(s.buckets, local) && !Cached(s.buckets, local) && PingsOk(s.pings, local)
  }

  // ---------- Sending pings ----------

  function SendPing(s: Proto, wire: nat -> nat, node: nat, replacement: Option<nat>, now: int): Proto {
    Proto(s.buckets, Put(s.pings, Ping(PingId(wire(s.sent), node), now + REQUEST_TIMEOUT, replacement)), s.sent + 1)
  }

  function PingAll(s: Proto, wire: nat -> nat, nodes: seq<nat>, now: int): Proto
    decreases |nodes|
  {
    if nodes == [] then s else PingAll(SendPing(s, wire, nodes[0], None, now), wire, nodes[1..], now)
  }

  /** The replacements of the buckets that are not full. */
  function Waiting(buckets: seq<Bucket>): seq<nat> {
    if buckets == [] then []
    else (if |buckets[0].nodes| < K_BUCKET_SIZE then buckets[0].cache else []) + Waiting(buckets[1..])
  }

  // ---------- Updating ----------

  /** How the walk over the expected pongs ends. */
  datatype LoopEnd =
    | Through(state: Proto)
    | Replaced(state: Proto, successor: nat)
    | Stopped(state: Proto)
    | Failed(state: Proto)

  function Without(s: Proto, i: nat): Proto
    requires i < |s.pings|
  {
    s.(pings := s.pings[..i] + s.pings[i + 1..])
  }

  /** Evict the nodes whose pings timed out, from position `i` on, until a replacement takes over. */
  function Expire(s: Proto, i: nat, node: nat, now: int): (r: LoopEnd)
    requires i <= |s.pings|
    ensures |r.state.pings| <= |s.pings| && (r.Replaced? ==> |r.state.pings| < |s.pings|)
    decreases |s.pings| - i
  {
    if i == |s.pings| then Through(s)
    else if !Expired(s.pings[i], now) then Expire(s, i + 1, node, now)
    else
      var p := s.pings[i];
      var (buckets, ok) := RemoveNode(s.buckets, p.id.node);
      var s' := Without(s, i).(buckets := buckets);
      if !ok then Failed(s')
      else if p.replacement.Some? then Replaced(s', p.replacement.value)
      else if p.id.node == node then Stopped(s')
      else Expire(s', i, node, now)
  }

  /** An expected pong arrived: the replacement is kept for later. False stands for the exception. */
  function Credit(s: Proto, pid: Option<PingId>): (Proto, bool) {
    if pid.None? || Find(s.pings, pid.value).None? then (s, true)
    else
      var left := s.(pings := Drop(s.pings, pid.value));
      match Find(s.pings, pid.value).value.replacement
      case None => (left, true)
      case Some(r) =>
        match Lookup(s.buckets, r)
        case None => (s, false)
        case Some(i) => (left.(buckets := s.buckets[i := s.buckets[i].(cache := s.buckets[i].cache + [r])]), true)
  }

  /** Add the node, ping the least recently seen one when its bucket is full, then the replacements. */
  function Admit(s: Proto, local: nat, wire: nat -> nat, node: nat, now: int): (Proto, bool)
    requires TableOk(s.buckets, local) && node <= MAX_ID
  {
    var (buckets, outcome) := AddNode(s.buckets, local, node);
    var s' := s.(buckets := buckets);
    match outcome
    case Raised => (s', false)
    case Added => (PingAll(s', wire, Waiting(buckets), now), true)
    case Evict(c) => (PingAll(SendPing(s', wire, c, Some(node), now), wire, Waiting(buckets), now), true)
  }

  /** A message from a node arrived, with the id of the ping it answers when it is a pong. */
  function Update(s: Proto, local: nat, wire: nat -> nat, node: nat, pid: Option<PingId>, now: int): (Proto, bool)
    requires ProtoOk(s, local) && node <= MAX_ID
    decreases |s.pings|
  {
    if node == local || (pid.Some? && Find(s.pings, pid.value).None?) then (s, true)
    else
      ExpireKeeps(s, local, 0, node, now);
      match Expire(s, 0, node, now)
      case Failed(s1) => (s1, false)
      case Stopped(s1) => (s1, true)
      case Replaced(s1, r) => Update(s1, local, wire, r, None, now)
      case Through(s1) =>
        CreditKeeps(s1, local, pid);
        var (s2, ok) := Credit(s1, pid);
        if !ok then (s2, false) else Admit(s2, local, wire, node, now)
  }

  // ---------- What evicting keeps ----------

  lemma RemoveKeepsCaches(buckets: seq<Bucket>, id: nat, n: nat)
    ensures Cached(RemoveNode(buckets, id).0, n) <==> Cached(buckets, n)
  {
    var t := RemoveNode(buckets, id).0;
    assert |t| == |buckets| && forall i :: 0 <= i < |t| ==> t[i].cache == buckets[i].cache;
  }

  lemma WithoutMembers(pings: seq<Ping>, i: nat)
    requires UniqueIds(pings) && i < |pings|
    ensures UniqueIds(pings[..i] + pings[i + 1..])
    ensures forall p :: p in pings[..i] + pings[i + 1..] <==> p in pings && p != pings[i]
  {
    DropAt(pings, i);
    DropMembers(pings, pings[i].id);
    forall p | p in pings && p.id == pings[i].id ensures p == pings[i] {
      var k :| 0 <= k < |pings| && pings[k] == p;
    }
  }

  /** One step of the walk: the ping is gone, and so is its node. */
  lemma EvictKeeps(s: Proto, local: nat, i: nat)
    requires ProtoOk(s, local) && i < |s.pings|
    ensures ProtoOk(Without(s, i).(buckets := RemoveNode(s.buckets, s.pings[i].id.node).0), local)
    ensures PingOk(s.pings[i], local)
  {
    assert s.pings[i] in s.pings;
    WithoutMembers(s.pings, i);
    RemoveKeepsTable(s.buckets, local, s.pings[i].id.node, 0);
    RemoveKeepsCaches(s.buckets, s.pings[i].id.node, local);
  }

  lemma {:induction false} ExpireKeeps(s: Proto, local: nat, i: nat, node: nat, now: int)
    requires ProtoOk(s, local) && i <= |s.pings|
    ensures var r := Expire(s, i, node, now);
            ProtoOk(r.state, local) && (r.Replaced? ==> Remote(r.successor, local))
    decreases |s.pings| - i
  {
    if i < |s.pings| {
      if !Expired(s.pings[i], now) {
        ExpireKeeps(s, local, i + 1, node, now);
      } else {
        EvictKeeps(s, local, i);
        var s' := Without(s, i).(buckets := RemoveNode(s.buckets, s.pings[i].id.node).0);
        if s.pings[i].replacement.None? && s.pings[i].id.node != node {
          ExpireKeeps(s', local, i, node, now);
        }
      }
    }
  }

  lemma CreditKeeps(s: Proto, local: nat, pid: Option<PingId>)
    requires ProtoOk(s, local)
    ensures ProtoOk(Credit(s, pid).0, local)
  {
    if pid.Some? && Find(s.pings, pid.value).Some? {
      var p := Find(s.pings, pid.value).value;
      DropMembers(s.pings, pid.value);
      if p.replacement.Some? && Lookup(s.buckets, p.replacement.value).Some? {
        CacheKeeps(s.buckets, local, p.replacement.value);
      }
    }
  }

  lemma CacheKeeps(buckets: seq<Bucket>, local: nat, r: nat)
    requires TableOk(buckets, local) && !Cached(buckets, local) && Remote(r, local) && Lookup(buckets, r).Some?
    ensures var i := Lookup(buckets, r).value;
            var t := buckets[i := buckets[i].(cache := buckets[i].cache + [r])];
            TableOk(t, local) && !Cached(t, local)
  {
    var i := Lookup(buckets, r).value;
    var b := buckets[i].(cache := buckets[i].cache + [r]);
    assert BucketOk(buckets[i]);
    assert BucketOk(b);
    ReplaceOk(buckets, local, i, b);
    assert local !in buckets[i].cache;
  }

  // ---------- What admitting keeps ----------

  lemma SplitCaches(buckets: seq<Bucket>, i: nat, n: nat)
    requires i < |buckets| && BucketOk(buckets[i]) && buckets[i].start < buckets[i].end
    ensures Cached(SplitAt(buckets, i), n) <==> Cached(buckets, n)
  {
    var t, b := SplitAt(buckets, i), buckets[i];
    HalvesOk(b);
    if k :| 0 <= k < |buckets| && n in buckets[k].cache {
      if k < i {
        assert n in t[k].cache;
      } else if k > i {
        assert t[k + 1] == buckets[k];
        assert n in t[k + 1].cache;
      } else {
        assert n in t[i].cache || n in t[i + 1].cache;
      }
    }
    if k :| 0 <= k < |t| && n in t[k].cache {
      if k < i {
        assert n in buckets[k].cache;
      } else if k > i + 1 {
        assert n in buckets[k - 1].cache;
      } else {
        assert n in buckets[i].cache;
      }
    }
  }

  lemma ReplaceCaches(buckets: seq<Bucket>, i: nat, b: Bucket, n: nat)
    requires i < |buckets| && b.cache == buckets[i].cache
    ensures Cached(buckets[i := b], n) <==> Cached(buckets, n)
  {
    var t := buckets[i := b];
    assert forall k :: 0 <= k < |t| ==> t[k].cache == buckets[k].cache;
  }

  /** Adding a node neither loses nor gains a replacement, however often it splits buckets. */
  lemma {:induction false} AddKeepsCaches(buckets: seq<Bucket>, local: nat, id: nat, n: nat)
    requires TableOk(buckets, local) && id <= MAX_ID
    ensures Cached(AddNode(buckets, local, id).0, n) <==> Cached(buckets, n)
    decreases Width(buckets, id)
  {
    if Lookup(buckets, id).Some? {
      var i := Lookup(buckets, id).value;
      var (b, evict) := AddToBucket(buckets[i], id);
      AddToBucketOk(buckets[i], id);
      if evict == None {
        ReplaceCaches(buckets, i, b, n);
      } else if MaySplit(buckets[i], local) {
        FoundFullIsWide(buckets, local, id);
        SplitOk(buckets, local, i);
        SplitNarrows(buckets, local, id);
        SplitCaches(buckets, i, n);
        AddKeepsCaches(SplitAt(buckets, i), local, id, n);
      }
    }
  }

  lemma {:induction false} WaitingCached(buckets: seq<Bucket>, n: nat)
    requires n in Waiting(buckets)
    ensures Cached(buckets, n)
    decreases |buckets|
  {
    if n in Waiting(buckets[1..]) {
      WaitingCached(buckets[1..], n);
      var i :| 0 <= i < |buckets[1..]| && n in buckets[1..][i].cache;
      assert n in buckets[i + 1].cache;
    } else {
      assert n in buckets[0].cache;
    }
  }

  /** Ids in the table are ids of remote nodes. */
  lemma TableIsRemote(buckets: seq<Bucket>, local: nat, n: nat)
    requires TableOk(buckets, local) && (Stored(buckets, n) || (Cached(buckets, n) && n != local))
    ensures Remote(n, local)
  {
    var i :| 0 <= i < |buckets| && (n in buckets[i].nodes || n in buckets[i].cache);
    assert BucketOk(buckets[i]);
    if i < |buckets| - 1 {
      EarlierEndsLower(buckets, local, i, |buckets| - 1);
      assert BucketOk(buckets[|buckets| - 1]);
    }
  }

  /** After pinging, each new ping has its time-out ahead, and the older ones are as they were. */
  ghost predicate OnlyNewPings(before: seq<Ping>, after: seq<Ping>, now: int) {
    forall p :: p in after ==> p in before || p.timeout == now + REQUEST_TIMEOUT
  }

  lemma SendPingKeeps(s: Proto, local: nat, wire: nat -> nat, node: nat, replacement: Option<nat>, now: int)
    requires PingsOk(s.pings, local) && Remote(node, local) && (replacement.Some? ==> Remote(replacement.value, local))
    ensures PingsOk(SendPing(s, wire, node, replacement, now).pings, local)
    ensures OnlyNewPings(s.pings, SendPing(s, wire, node, replacement, now).pings, now)
  {
    PutMembers(s.pings, Ping(PingId(wire(s.sent), node), now + REQUEST_TIMEOUT, replacement));
  }

  lemma {:induction false} PingAllKeeps(s: Proto, local: nat, wire: nat -> nat, nodes: seq<nat>, now: int)
    requires PingsOk(s.pings, local) && forall n :: n in nodes ==> Remote(n, local)
    ensures PingsOk(PingAll(s, wire, nodes, now).pings, local) && PingAll(s, wire, nodes, now).buckets == s.buckets
    ensures OnlyNewPings(s.pings, PingAll(s, wire, nodes, now).pings, now)
    decreases |nodes|
  {
    if nodes != [] {
      SendPingKeeps(s, local, wire, nodes[0], None, now);
      PingAllKeeps(SendPing(s, wire, nodes[0], None, now), local, wire, nodes[1..], now);
    }
  }

  lemma AdmitKeeps(s: Proto, local: nat, wire: nat -> nat, node: nat, now: int)
    requires ProtoOk(s, local) && Remote(node, local)
    ensures var s' := Admit(s, local, wire, node, now).0;
            ProtoOk(s', local) && OnlyNewPings(s.pings, s'.pings, now) && s'.buckets == AddNode(s.buckets, local, node).0
  {
    var (buckets, outcome) := AddNode(s.buckets, local, node);
    AddKeepsTable(s.buckets, local, node);
    AddKeepsCaches(s.buckets, local, node, local);
    forall n | n in Waiting(buckets) ensures Remote(n, local) {
      WaitingCached(buckets, n);
      TableIsRemote(buckets, local, n);
    }
    var s' := s.(buckets := buckets);
    if outcome.Evict? {
      AddStores(s.buckets, local, node, outcome.candidate);
      TableIsRemote(s.buckets, local, outcome.candidate);
      SendPingKeeps(s', local, wire, outcome.candidate, Some(node), now);
      PingAllKeeps(SendPing(s', wire, outcome.candidate, Some(node), now), local, wire, Waiting(buckets), now);
    } else if outcome.Added? {
      PingAllKeeps(s', local, wire, Waiting(buckets), now);
    }
  }

  // ---------- What an update keeps ----------

  /** An update keeps the state well-formed; its pings and replacements never name the local node. */
  lemma {:induction false} UpdateKeeps(s: Proto, local: nat, wire: nat -> nat, node: nat, pid: Option<PingId>, now: int)
    requires ProtoOk(s, local) && node <= MAX_ID
    ensures ProtoOk(Update(s, local, wire, node, pid, now).0, local)
    decreases |s.pings|
  {
    if node != local && !(pid.Some? && Find(s.pings, pid.value).None?) {
      ExpireKeeps(s, local, 0, node, now);
      match Expire(s, 0, node, now)
      case Replaced(s1, r) => UpdateKeeps(s1, local, wire, r, None, now);
      case Through(s1) =>
        CreditKeeps(s1, local, pid);
        if Credit(s1, pid).1 {
          AdmitKeeps(Credit(s1, pid).0, local, wire, node, now);
        }
      case _ =>
    }
  }

  ghost predicate TimedOut(pings: seq<Ping>, n: nat, now: int) {
    exists p :: p in pings && p.id.node == n && Expired(p, now)
  }

  /** `n` waits for the outcome of a ping that timed out. */
  ghost predicate TakesOver(pings: seq<Ping>, n: nat, now: int) {
    exists p :: p in pings && p.replacement == Some(n) && Expired(p, now)
  }

  /** What a walk over the expected pongs does to the table and to the pongs. */
  ghost predicate Evicts(s: Proto, s': Proto, now: int) {
    && (forall p :: p in s'.pings ==> p in s.pings)
    && (forall p :: p in s.pings && !Expired(p, now) ==> p in s'.pings)
    && (forall n :: Stored(s'.buckets, n) ==> Stored(s.buckets, n))
    && (forall n :: Stored(s.buckets, n) && !Stored(s'.buckets, n) ==> TimedOut(s.pings, n, now))
    && (forall x, y :: Older(s'.buckets, x, y) ==> Older(s.buckets, x, y))
    && (forall id :: Lookup(s'.buckets, id) == Lookup(s.buckets, id))
  }

  lemma RemovalKeepsOrder(buckets: seq<Bucket>, id: nat, x: nat, y: nat)
    requires Older(RemoveNode(buckets, id).0, x, y)
    ensures Older(buckets, x, y)
  {
    var t := RemoveNode(buckets, id).0;
    var k :| 0 <= k < |t| && SeenBefore(t[k].nodes, x, y);
    if t[k] != buckets[k] {
      RemoveKeepsOrder(buckets[k].nodes, id, x, y);
    }
    assert SeenBefore(buckets[k].nodes, x, y);
  }

  lemma RemovalKeepsLookup(buckets: seq<Bucket>, id: nat, other: nat)
    ensures Lookup(RemoveNode(buckets, id).0, other) == Lookup(buckets, other)
  {
    if Lookup(buckets, id).Some? {
      var i := Lookup(buckets, id).value;
      LookupUnchanged(buckets, i, buckets[i].(nodes := Remove(buckets[i].nodes, id)), other, 0);
    }
  }

  lemma EvictOne(s: Proto, local: nat, i: nat, now: int)
    requires ProtoOk(s, local) && i < |s.pings| && Expired(s.pings[i], now)
    ensures Evicts(s, Without(s, i).(buckets := RemoveNode(s.buckets, s.pings[i].id.node).0), now)
  {
    var p := s.pings[i];
    var t := RemoveNode(s.buckets, p.id.node).0;
    assert p in s.pings && PingOk(p, local);
    WithoutMembers(s.pings, i);
    forall n ensures Stored(t, n) ==> Stored(s.buckets, n)
             ensures Stored(s.buckets, n) && !Stored(t, n) ==> TimedOut(s.pings, n, now) {
      RemoveKeepsTable(s.buckets, local, p.id.node, n);
    }
    forall x, y | Older(t, x, y) ensures Older(s.buckets, x, y) {
      RemovalKeepsOrder(s.buckets, p.id.node, x, y);
    }
    forall id ensures Lookup(t, id) == Lookup(s.buckets, id) {
      RemovalKeepsLookup(s.buckets, p.id.node, id);
    }
  }

  lemma EvictsTrans(s: Proto, m: Proto, e: Proto, now: int)
    requires Evicts(s, m, now) && Evicts(m, e, now)
    ensures Evicts(s, e, now)
  {
    forall n | Stored(s.buckets, n) && !Stored(e.buckets, n) ensures TimedOut(s.pings, n, now) {
      if Stored(m.buckets, n) {
        var p :| p in m.pings && p.id.node == n && Expired(p, now);
        assert p in s.pings;
      }
    }
  }

  lemma {:induction false} ExpireEvicts(s: Proto, local: nat, i: nat, node: nat, now: int)
    requires ProtoOk(s, local) && i <= |s.pings|
    ensures Evicts(s, Expire(s, i, node, now).state, now)
    ensures var r := Expire(s, i, node, now); r.Replaced? ==> TakesOver(s.pings, r.successor, now)
    decreases |s.pings| - i
  {
    if i < |s.pings| {
      if !Expired(s.pings[i], now) {
        ExpireEvicts(s, local, i + 1, node, now);
      } else {
        EvictKeeps(s, local, i);
        EvictOne(s, local, i, now);
        var p := s.pings[i];
        var (buckets, ok) := RemoveNode(s.buckets, p.id.node);
        var s' := Without(s, i).(buckets := buckets);
        if ok && p.replacement.None? && p.id.node != node {
          ExpireEvicts(s', local, i, node, now);
          EvictsTrans(s, s', Expire(s', i, node, now).state, now);
          WithoutMembers(s.pings, i);
        }
      }
    }
  }
}
